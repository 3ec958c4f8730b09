/** The request dataset: every candidate of every request with its stage decisions, labels and attribution. */
module RequestDataset {
  import opened Outcomes
  import opened Seqs
  import opened Ranks
  import opened Cascade
  import opened Trajectories
  import opened FeedEnvironment
  import opened Population

  type Features = seq<real>

  datatype TraceRow = TraceRow(
    requestId: string, userId: int, session: int, request: int, item: Item, candidateIds: seq<Item>,
    candidateRoutes: seq<seq<Route>>, candidateFeatures: seq<Features>, candidateScores: seq<real>, recallCount: nat,
    coarseCount: nat, features: Features, watchMinutes: real, returned: bool, recalledIds: seq<Item>,
    recalledRoutes: seq<seq<Route>>, mergeScores: seq<real>, coarseScores: seq<real>, oracleScores: seq<real>,
    oracle: Item)

  /** Author and poi of every item. */
  datatype Catalog = Catalog(author: Item -> int, poi: Item -> int)

  type LabelKey = (string, Item, int)

  datatype Labels = Labels(hard: map<string, real>, masks: map<string, bool>)

  datatype RequestRecord = RequestRecord(
    requestId: string, userId: int, session: int, request: int, impressionTime: int, sequence: seq<Features>)

  datatype FilterReason = FineRankedOut | CoarseFiltered

  datatype CandidateRecord = CandidateRecord(
    requestId: string, candidateId: Item, author: int, poi: int, routes: seq<Route>, recallScore: real, recallRank: nat,
    oracleScore: real, isOracle: bool, coarseScore: real, coarseRank: nat, coarsePass: bool, fineFeatures: Features,
    fineScore: Option<real>, fineRank: Option<nat>, valueScore: Option<real>, mixScore: Option<real>,
    mixRank: Option<nat>, exposedPosition: Option<nat>, filterReason: Option<FilterReason>)

  datatype LabelRecord = LabelRecord(
    requestId: string, candidateId: Item, poi: int, labels: map<string, real>, masks: map<string, bool>,
    lt: Option<LtValue>)

  datatype Stage = RecallMiss | CoarseMiss | FineRankMiss | MixRankMiss | ServedOracle

  // ---------------------------------------------------------------------------------------------
  // One request.

  /** `_validate_trace` lets the row pass. */
  predicate ValidTrace(row: TraceRow) {
    && |row.recalledIds| == |row.recalledRoutes| == |row.mergeScores| == |row.coarseScores| == |row.oracleScores|
       == row.recallCount
    && |row.candidateIds| == |row.candidateRoutes| == |row.candidateFeatures| == |row.candidateScores|
       == row.coarseCount
    && (forall x :: x in row.candidateIds ==> x in row.recalledIds)
    && row.item in row.candidateIds
  }

  /** `{candidate_id: index}`: a repeated id keeps its last index. */
  function IndexOf(ids: seq<Item>, id: Item): (r: Option<nat>)
    ensures r.None? <==> id !in ids
    ensures r.Some? ==> r.value < |ids| && ids[r.value] == id
    ensures r.Some? ==> forall j :: r.value < j < |ids| ==> ids[j] != id
  {
    if ids == [] then None
    else if ids[|ids| - 1] == id then Some(|ids| - 1)
    else
      assert ids == ids[..|ids| - 1] + [ids[|ids| - 1]];
      IndexOf(ids[..|ids| - 1], id)
  }

  function Candidate(row: TraceRow, catalog: Catalog, k: nat, coarseRank: seq<nat>, fineRank: seq<nat>): CandidateRecord
    requires ValidTrace(row) && k < row.recallCount
    requires |coarseRank| == row.recallCount && |fineRank| == row.coarseCount
  {
    var id := row.recalledIds[k];
    var index := IndexOf(row.candidateIds, id);
    var exposed := id == row.item;
    var rank := if index.Some? then Some(fineRank[index.value]) else None;
    var score := if index.Some? then Some(row.candidateScores[index.value]) else None;
    CandidateRecord(
      row.requestId, id, catalog.author(id), catalog.poi(id), row.recalledRoutes[k], row.mergeScores[k], k + 1,
      row.oracleScores[k], id == row.oracle, row.coarseScores[k], coarseRank[k], index.Some?,
      if index.Some? then row.candidateFeatures[index.value] else [], score, rank, score, score, rank,
      if exposed then Some(1) else None,
      if exposed then None else Some(if index.Some? then FineRankedOut else CoarseFiltered))
  }

  function CandidatesOf(row: TraceRow, catalog: Catalog): (r: seq<CandidateRecord>)
    requires ValidTrace(row)
    ensures |r| == row.recallCount
  {
    seq(row.recallCount, k requires 0 <= k < row.recallCount =>
      Candidate(row, catalog, k, RankList(row.coarseScores), RankList(row.candidateScores)))
  }

  /** `_lt_components`: nothing for a negative item id. */
  function LtComponents(row: TraceRow): Option<LtValue> {
    if row.item < 0 then None else Some(Evaluate(row.watchMinutes, if row.returned then 1.0 else 0.0, 0.0))
  }

  function LabelOf(row: TraceRow, catalog: Catalog, source: map<LabelKey, Labels>, tasks: set<string>, c: CandidateRecord):
    LabelRecord
  {
    var key := (row.requestId, c.candidateId, c.poi);
    LabelRecord(
      row.requestId, c.candidateId, catalog.poi(c.candidateId),
      if key in source then source[key].hard else map t | t in tasks :: 0.0,
      if key in source then source[key].masks else map t | t in tasks :: false,
      if c.candidateId == row.item && key in source then LtComponents(row) else None)
  }

  function LabelsOf(row: TraceRow, catalog: Catalog, source: map<LabelKey, Labels>, tasks: set<string>): seq<LabelRecord>
    requires ValidTrace(row)
  {
    Map(CandidatesOf(row, catalog), (c: CandidateRecord) => LabelOf(row, catalog, source, tasks, c))
  }

  /** `_row_records`. */
  method RowRecords(row: TraceRow, catalog: Catalog, source: map<LabelKey, Labels>, tasks: set<string>)
    returns (candidates: seq<CandidateRecord>, labels: seq<LabelRecord>)
    requires ValidTrace(row)
    ensures candidates == CandidatesOf(row, catalog) && labels == LabelsOf(row, catalog, source, tasks)
  {
    var coarseRank := ComputeRanks(row.coarseScores);
    var fineRank := ComputeRanks(row.candidateScores);
    candidates := seq(row.recallCount, k requires 0 <= k < row.recallCount =>
      Candidate(row, catalog, k, coarseRank, fineRank));
    labels := Map(candidates, (c: CandidateRecord) => LabelOf(row, catalog, source, tasks, c));
  }

  /** The first record of the candidate, or None. */
  function Find(records: seq<CandidateRecord>, id: Item): (r: Option<CandidateRecord>)
    ensures r.None? <==> forall c :: c in records ==> c.candidateId != id
    ensures r.Some? ==> r.value in records && r.value.candidateId == id
  {
    if records == [] then None
    else if records[0].candidateId == id then Some(records[0])
    else
      var r := Find(records[1..], id);
      assert records == [records[0]] + records[1..];
      r
  }

  /** `_attribution`: where the best item of the corpus was lost. */
  function Attribution(row: TraceRow, records: seq<CandidateRecord>): Stage {
    if row.oracle !in (set c | c in records :: c.candidateId) then RecallMiss
    else if row.oracle !in (set c | c in records && c.coarsePass :: c.candidateId) then CoarseMiss
    else if row.oracle == row.item then ServedOracle
    else
      match Find(records, row.oracle)
      case None => FineRankMiss
      case Some(c) => if c.mixRank != c.fineRank then MixRankMiss else FineRankMiss
  }

  // ---------------------------------------------------------------------------------------------
  // What a closed request satisfies.

  lemma CandidateAt(row: TraceRow, catalog: Catalog, k: nat)
    requires ValidTrace(row) && k < row.recallCount
    ensures var c := CandidatesOf(row, catalog)[k];
      && c.requestId == row.requestId && c.candidateId == row.recalledIds[k] && c.recallRank == k + 1
      && c.coarseRank == RankOf(row.coarseScores, k)
      && (c.coarsePass <==> c.candidateId in row.candidateIds)
      && (c.exposedPosition == Some(1) <==> c.candidateId == row.item) && (c.exposedPosition.Some? ==> c.coarsePass)
      && (c.filterReason.None? <==> c.exposedPosition == Some(1))
      && c.mixRank == c.fineRank && (c.fineRank.Some? <==> c.coarsePass)
  {
  }

  /** The place of a candidate among the fine ones: its last, should an id be repeated. */
  ghost predicate LastPlace(row: TraceRow, id: Item, m: nat) {
    m < |row.candidateIds| && row.candidateIds[m] == id && forall j :: m < j < |row.candidateIds| ==> row.candidateIds[j] != id
  }

  /** A record's logged values are the request's at its place in recall; its fine values are those at its place among
      the fine candidates, if it has one; and its filter reason says how far it came. */
  lemma CandidateMeans(row: TraceRow, catalog: Catalog, k: nat)
    requires ValidTrace(row) && k < row.recallCount
    ensures var c, id := CandidatesOf(row, catalog)[k], row.recalledIds[k];
      && c.routes == row.recalledRoutes[k] && c.recallScore == row.mergeScores[k]
      && c.coarseScore == row.coarseScores[k] && c.oracleScore == row.oracleScores[k]
      && c.author == catalog.author(id) && c.poi == catalog.poi(id) && (c.isOracle <==> id == row.oracle)
      && (forall m: nat :: LastPlace(row, id, m) ==>
            && c.fineScore == c.valueScore == c.mixScore == Some(row.candidateScores[m])
            && c.fineRank == c.mixRank == Some(RankList(row.candidateScores)[m])
            && c.fineFeatures == row.candidateFeatures[m])
      && (id !in row.candidateIds ==>
            && c.fineScore == c.valueScore == c.mixScore == None && c.fineRank == c.mixRank == None
            && c.fineFeatures == [])
      && (c.filterReason == None <==> id == row.item)
      && (c.filterReason == Some(FineRankedOut) <==> id != row.item && id in row.candidateIds)
      && (c.filterReason == Some(CoarseFiltered) <==> id != row.item && id !in row.candidateIds)
  {
  }

  /** The record's labels and masks are those the joiner made for its request, candidate and poi, and empty if it made
      none. */
  ghost predicate CarriesSource(l: LabelRecord, source: map<LabelKey, Labels>, tasks: set<string>) {
    var key := (l.requestId, l.candidateId, l.poi);
    && (key in source ==> l.labels == source[key].hard && l.masks == source[key].masks)
    && (key !in source ==>
          && l.labels.Keys == l.masks.Keys == tasks
          && forall t :: t in tasks ==> l.labels[t] == 0.0 && l.masks[t] == false)
  }

  /** Only the exposed candidate, when it has an example, carries long-term value: its minutes and five for a return. */
  ghost predicate CarriesValue(l: LabelRecord, row: TraceRow, source: map<LabelKey, Labels>) {
    && l.requestId == row.requestId && l.candidateId in row.recalledIds
    && (l.lt.Some? <==>
          l.candidateId == row.item && row.item >= 0 && (l.requestId, l.candidateId, l.poi) in source)
    && (l.lt.Some? ==>
          && l.lt.value.stay == row.watchMinutes && l.lt.value.activeDays == (if row.returned then 5.0 else 0.0)
          && l.lt.value.commercialization == 0.0
          && l.lt.value.total == row.watchMinutes + (if row.returned then 5.0 else 0.0))
  }

  lemma LabelMeans(row: TraceRow, catalog: Catalog, source: map<LabelKey, Labels>, tasks: set<string>, k: nat)
    requires ValidTrace(row) && k < row.recallCount
    ensures var l := LabelsOf(row, catalog, source, tasks)[k];
      && l.candidateId == row.recalledIds[k] && l.poi == catalog.poi(row.recalledIds[k])
      && CarriesSource(l, source, tasks) && CarriesValue(l, row, source)
  {
  }

  lemma CandidateIds(row: TraceRow, catalog: Catalog)
    requires ValidTrace(row)
    ensures Map(CandidatesOf(row, catalog), (c: CandidateRecord) => c.candidateId) == row.recalledIds
    ensures forall c :: c in CandidatesOf(row, catalog) ==>
      && c.candidateId in row.recalledIds && (c.coarsePass <==> c.candidateId in row.candidateIds)
      && (c.exposedPosition == Some(1) <==> c.candidateId == row.item) && c.mixRank == c.fineRank
  {
    var records := CandidatesOf(row, catalog);
    forall c | c in records
      ensures c.candidateId in row.recalledIds && (c.coarsePass <==> c.candidateId in row.candidateIds)
      ensures (c.exposedPosition == Some(1) <==> c.candidateId == row.item) && c.mixRank == c.fineRank
    {
      var k :| 0 <= k < |records| && records[k] == c;
      CandidateAt(row, catalog, k);
    }
  }

  function IdOf(c: CandidateRecord): Item {
    c.candidateId
  }

  /** Records with distinct ids, selected by id: as many as there are ids to select. */
  lemma SelectedByIds(records: seq<CandidateRecord>, p: CandidateRecord -> bool, ids: seq<Item>)
    requires Distinct(Map(records, IdOf)) && Distinct(ids)
    requires forall c :: c in records ==> (p(c) <==> c.candidateId in ids)
    requires forall x :: x in ids ==> x in Map(records, IdOf)
    ensures |Filter(records, p)| == |ids|
  {
    var kept := Filter(records, p);
    FilterContains(records, p);
    assert Distinct(records) by {
      forall i, j | 0 <= i < j < |records| ensures records[i] != records[j] {
        assert Map(records, IdOf)[i] != Map(records, IdOf)[j];
      }
    }
    FilterDistinct(records, p);
    forall i, j | 0 <= i < j < |kept| ensures Map(kept, IdOf)[i] != Map(kept, IdOf)[j] {
      assert kept[i] in records && kept[j] in records;
      SameIdSameRecord(records, kept[i], kept[j]);
    }
    forall x ensures x in Map(kept, IdOf) <==> x in ids {
      if x in ids {
        var i :| 0 <= i < |records| && Map(records, IdOf)[i] == x;
        assert records[i] in kept;
        var j :| 0 <= j < |kept| && kept[j] == records[i];
        assert Map(kept, IdOf)[j] == x;
      }
      if x in Map(kept, IdOf) {
        var j :| 0 <= j < |kept| && Map(kept, IdOf)[j] == x;
        assert kept[j] in kept;
      }
    }
    SameElementsSameSize(Map(kept, IdOf), ids);
  }

  lemma SameIdSameRecord(records: seq<CandidateRecord>, a: CandidateRecord, b: CandidateRecord)
    requires Distinct(Map(records, IdOf)) && a in records && b in records && a != b
    ensures a.candidateId != b.candidateId
  {
    var i :| 0 <= i < |records| && records[i] == a;
    var j :| 0 <= j < |records| && records[j] == b;
    assert Map(records, IdOf)[i] != Map(records, IdOf)[j];
  }

  function Passed(c: CandidateRecord): bool {
    c.coarsePass
  }

  function Exposed(c: CandidateRecord): bool {
    c.exposedPosition == Some(1)
  }

  /** A valid request with distinct ids closes every stage: one record for each recalled candidate in recall order,
      one label record aligned with it key by key, as many coarse passes as the coarse stage kept, and exactly one
      exposure. */
  lemma RequestCloses(row: TraceRow, catalog: Catalog, source: map<LabelKey, Labels>, tasks: set<string>)
    requires ValidTrace(row) && Distinct(row.recalledIds) && Distinct(row.candidateIds)
    ensures var candidates, labels := CandidatesOf(row, catalog), LabelsOf(row, catalog, source, tasks);
      && |candidates| == |labels| == row.recallCount
      && Map(candidates, IdOf) == row.recalledIds
      && (forall k :: 0 <= k < row.recallCount ==>
            && labels[k].requestId == candidates[k].requestId == row.requestId
            && labels[k].candidateId == candidates[k].candidateId && labels[k].poi == candidates[k].poi)
      && |Filter(candidates, Passed)| == row.coarseCount
      && |Filter(candidates, Exposed)| == 1
  {
    var candidates := CandidatesOf(row, catalog);
    CandidateIds(row, catalog);
    assert Map(candidates, IdOf) == row.recalledIds;
    SelectedByIds(candidates, Passed, row.candidateIds);
    SelectedByIds(candidates, Exposed, [row.item]);
    forall k | 0 <= k < row.recallCount ensures candidates[k].poi == catalog.poi(candidates[k].candidateId) {
    }
  }

  lemma StageSets(records: seq<CandidateRecord>, row: TraceRow)
    requires ValidTrace(row) && Map(records, IdOf) == row.recalledIds
    requires forall c :: c in records ==> (c.coarsePass <==> c.candidateId in row.candidateIds)
    ensures row.oracle in (set c | c in records :: c.candidateId) <==> row.oracle in row.recalledIds
    ensures row.oracle in (set c | c in records && c.coarsePass :: c.candidateId) <==> row.oracle in row.candidateIds
    ensures row.item in row.candidateIds
    ensures row.oracle in row.candidateIds ==> row.oracle in row.recalledIds
  {
    forall k | 0 <= k < |records| ensures records[k].candidateId == row.recalledIds[k] && records[k] in records {
    }
    if row.oracle in row.recalledIds {
      var k :| 0 <= k < |records| && row.recalledIds[k] == row.oracle;
      assert records[k] in records;
    }
    if c :| c in records && c.candidateId == row.oracle {
      var k :| 0 <= k < |records| && records[k] == c;
      assert row.recalledIds[k] == row.oracle;
    }
  }

  /** The attribution names the stage that lost the corpus's best item; the mix stage never does. */
  lemma AttributionMeans(row: TraceRow, catalog: Catalog)
    requires ValidTrace(row)
    ensures var stage := Attribution(row, CandidatesOf(row, catalog));
      && (stage == RecallMiss <==> row.oracle !in row.recalledIds)
      && (stage == CoarseMiss <==> row.oracle in row.recalledIds && row.oracle !in row.candidateIds)
      && (stage == ServedOracle <==> row.oracle == row.item)
      && stage != MixRankMiss
  {
    hide CandidatesOf, ValidTrace;
    var records := CandidatesOf(row, catalog);
    CandidateIds(row, catalog);
    assert Map(records, IdOf) == row.recalledIds;
    StageSets(records, row);
  }

  // ---------------------------------------------------------------------------------------------
  // The whole dataset.

  function ImpressionTime(user: int, session: int, request: int): int {
    1_800_000_000 + user * 100_000 + session * 1_000 + request * 10
  }

  /** A request's record: its history is the last 24 of the strictly earlier exposures' first eight features. */
  function RequestOf(user: nat, rows: seq<TraceRow>, k: nat): RequestRecord
    requires k < |rows|
  {
    var row := rows[k];
    RequestRecord(row.requestId, row.userId, row.session, row.request, ImpressionTime(user, row.session, row.request),
                  Last(Map(rows[..k], (r: TraceRow) => Take(r.features, 8)), 24))
  }

  function RequestsOf(user: nat, rows: seq<TraceRow>): seq<RequestRecord> {
    seq(|rows|, k requires 0 <= k < |rows| => RequestOf(user, rows, k))
  }

  function AllRequests(trajectories: seq<seq<TraceRow>>): seq<RequestRecord> {
    if trajectories == [] then []
    else
      var user := |trajectories| - 1;
      AllRequests(trajectories[..user]) + RequestsOf(user, trajectories[user])
  }

  function AllRows(trajectories: seq<seq<TraceRow>>): seq<TraceRow> {
    FlatMap(trajectories, (rows: seq<TraceRow>) => rows)
  }

  /** The part of a row that goes into the candidate table; a row that does not validate has none. */
  function CandidateRows(catalog: Catalog): TraceRow -> seq<CandidateRecord> {
    (row: TraceRow) => if ValidTrace(row) then CandidatesOf(row, catalog) else []
  }

  function LabelRows(catalog: Catalog, source: map<LabelKey, Labels>, tasks: set<string>): TraceRow -> seq<LabelRecord> {
    (row: TraceRow) => if ValidTrace(row) then LabelsOf(row, catalog, source, tasks) else []
  }

  function StageOf(catalog: Catalog, row: TraceRow): Stage {
    if ValidTrace(row) then Attribution(row, CandidatesOf(row, catalog)) else RecallMiss
  }

  function StageCount(rows: seq<TraceRow>, catalog: Catalog, stage: Stage): nat {
    |Filter(rows, (row: TraceRow) => StageOf(catalog, row) == stage)|
  }

  /** Counters by stage, and the number of requests. */
  datatype Counters = Counters(recallMiss: nat, coarseMiss: nat, fineRankMiss: nat, mixRankMiss: nat, servedOracle: nat)
  {
    function Of(stage: Stage): nat {
      match stage
      case RecallMiss => recallMiss
      case CoarseMiss => coarseMiss
      case FineRankMiss => fineRankMiss
      case MixRankMiss => mixRankMiss
      case ServedOracle => servedOracle
    }

    function Add(stage: Stage): Counters {
      match stage
      case RecallMiss => this.(recallMiss := recallMiss + 1)
      case CoarseMiss => this.(coarseMiss := coarseMiss + 1)
      case FineRankMiss => this.(fineRankMiss := fineRankMiss + 1)
      case MixRankMiss => this.(mixRankMiss := mixRankMiss + 1)
      case ServedOracle => this.(servedOracle := servedOracle + 1)
    }
  }

  datatype Dataset = Dataset(
    requests: seq<RequestRecord>, candidates: seq<CandidateRecord>, labels: seq<LabelRecord>, attribution: Counters,
    total: nat)

  /** The three tables and the counters over these rows. */
  ghost predicate Tables(candidates: seq<CandidateRecord>, labels: seq<LabelRecord>, counts: Counters,
                         rows: seq<TraceRow>, catalog: Catalog, source: map<LabelKey, Labels>, tasks: set<string>) {
    && candidates == FlatMap(rows, CandidateRows(catalog))
    && labels == FlatMap(rows, LabelRows(catalog, source, tasks))
    && (forall stage: Stage :: counts.Of(stage) == StageCount(rows, catalog, stage))
    && (forall row :: row in rows ==> ValidTrace(row))
  }

  lemma StageSnoc(rows: seq<TraceRow>, row: TraceRow, catalog: Catalog, stage: Stage)
    ensures StageCount(rows + [row], catalog, stage)
         == StageCount(rows, catalog, stage) + if StageOf(catalog, row) == stage then 1 else 0
  {
    hide StageOf;
    FilterSnoc(rows, row, (r: TraceRow) => StageOf(catalog, r) == stage);
  }

  lemma TablesSnoc(candidates: seq<CandidateRecord>, labels: seq<LabelRecord>, counts: Counters, rows: seq<TraceRow>,
                   catalog: Catalog, source: map<LabelKey, Labels>, tasks: set<string>, row: TraceRow)
    requires Tables(candidates, labels, counts, rows, catalog, source, tasks) && ValidTrace(row)
    ensures Tables(candidates + CandidatesOf(row, catalog), labels + LabelsOf(row, catalog, source, tasks),
                   counts.Add(Attribution(row, CandidatesOf(row, catalog))), rows + [row], catalog, source, tasks)
  {
    hide CandidatesOf, LabelsOf, Attribution, StageCount;
    FlatMapSnoc(rows, row, CandidateRows(catalog));
    FlatMapSnoc(rows, row, LabelRows(catalog, source, tasks));
    forall stage: Stage {
      StageSnoc(rows, row, catalog, stage);
    }
  }

  lemma NoTables(catalog: Catalog, source: map<LabelKey, Labels>, tasks: set<string>)
    ensures Tables([], [], Counters(0, 0, 0, 0, 0), [], catalog, source, tasks)
  {
  }

  /** One trajectory's rows, with its own growing history. */
  method AddTrajectory(user: nat, rows: seq<TraceRow>, catalog: Catalog, source: map<LabelKey, Labels>,
                       tasks: set<string>, requests: seq<RequestRecord>, candidates: seq<CandidateRecord>,
                       labels: seq<LabelRecord>, counts: Counters, ghost before: seq<TraceRow>)
    returns (ok: bool, requests': seq<RequestRecord>, candidates': seq<CandidateRecord>, labels': seq<LabelRecord>,
             counts': Counters)
    requires Tables(candidates, labels, counts, before, catalog, source, tasks)
    ensures !ok ==> exists row :: row in rows && !ValidTrace(row)
    ensures ok ==> requests' == requests + RequestsOf(user, rows)
    ensures ok ==> Tables(candidates', labels', counts', before + rows, catalog, source, tasks)
  {
    hide Tables, CandidatesOf, LabelsOf, Attribution, ValidTrace, FirstRequests, RequestsOf;
    requests', candidates', labels', counts' := requests, candidates, labels, counts;
    var history: seq<Features> := [];
    assert before + rows[..0] == before;
    NoRequests(user, rows);
    for k := 0 to |rows|
      invariant history == Map(rows[..k], (r: TraceRow) => Take(r.features, 8))
      invariant requests' == requests + FirstRequests(user, rows, k)
      invariant Tables(candidates', labels', counts', before + rows[..k], catalog, source, tasks)
    {
      var row := rows[k];
      if !ValidTrace(row) {
        assert row in rows;
        return false, requests', candidates', labels', counts';
      }
      var request := RequestRecord(row.requestId, row.userId, row.session, row.request,
                                   ImpressionTime(user, row.session, row.request), Last(history, 24));
      requests' := requests' + [request];
      NextRequest(user, rows, k);
      var rowCandidates, rowLabels := RowRecords(row, catalog, source, tasks);
      TablesSnoc(candidates', labels', counts', before + rows[..k], catalog, source, tasks, row);
      candidates', labels' := candidates' + rowCandidates, labels' + rowLabels;
      counts' := counts'.Add(Attribution(row, rowCandidates));
      assert rows[..k + 1] == rows[..k] + [row];
      assert before + rows[..k + 1] == before + rows[..k] + [row];
      history := history + [Take(row.features, 8)];
    }
    assert rows[..|rows|] == rows;
    AllFirst(user, rows);
    ok := true;
  }

  function FirstRequests(user: nat, rows: seq<TraceRow>, n: nat): seq<RequestRecord>
    requires n <= |rows|
  {
    seq(n, k requires 0 <= k < n => RequestOf(user, rows, k))
  }

  lemma NoRequests(user: nat, rows: seq<TraceRow>)
    ensures FirstRequests(user, rows, 0) == []
  {
  }

  lemma NextRequest(user: nat, rows: seq<TraceRow>, k: nat)
    requires k < |rows|
    ensures FirstRequests(user, rows, k + 1) == FirstRequests(user, rows, k) + [RequestOf(user, rows, k)]
  {
    hide RequestOf;
  }

  lemma AllFirst(user: nat, rows: seq<TraceRow>)
    ensures FirstRequests(user, rows, |rows|) == RequestsOf(user, rows)
  {
    hide RequestOf;
  }

  /** Building fails exactly when some row does not validate; otherwise the tables hold every row's records in
      order and the counters sort the requests by stage. */
  method Build(trajectories: seq<seq<TraceRow>>, catalog: Catalog, source: map<LabelKey, Labels>, tasks: set<string>)
    returns (r: Result<Dataset, string>)
    ensures r.Success? <==> forall row :: row in AllRows(trajectories) ==> ValidTrace(row)
    ensures r.Success? ==>
      && r.value.requests == AllRequests(trajectories)
      && Tables(r.value.candidates, r.value.labels, r.value.attribution, AllRows(trajectories), catalog, source, tasks)
      && r.value.total == |AllRows(trajectories)|
    ensures r.Success? ==> LabelsCarry(r.value.labels, AllRows(trajectories), source, tasks)
  {
    hide Tables, RequestsOf, ValidTrace, LabelsCarry;
    var requests, candidates, labels, counts := [], [], [], Counters(0, 0, 0, 0, 0);
    NoTables(catalog, source, tasks);
    for user := 0 to |trajectories|
      invariant requests == AllRequests(trajectories[..user])
      invariant Tables(candidates, labels, counts, AllRows(trajectories[..user]), catalog, source, tasks)
    {
      var rows := trajectories[user];
      assert trajectories[..user + 1] == trajectories[..user] + [rows];
      assert trajectories[..user + 1][..user] == trajectories[..user];
      FlatMapSnoc(trajectories[..user], rows, (rows: seq<TraceRow>) => rows);
      var ok;
      ok, requests, candidates, labels, counts :=
        AddTrajectory(user, rows, catalog, source, tasks, requests, candidates, labels, counts,
                      AllRows(trajectories[..user]));
      if !ok {
        RowsOfAll(trajectories, user);
        return Failure("open stage log");
      }
    }
    assert trajectories[..|trajectories|] == trajectories;
    RequestPerRow(trajectories);
    TablesValid(candidates, labels, counts, AllRows(trajectories), catalog, source, tasks);
    LabelTableMeans(AllRows(trajectories), catalog, source, tasks);
    r := Success(Dataset(requests, candidates, labels, counts, |requests|));
  }

  lemma TablesValid(candidates: seq<CandidateRecord>, labels: seq<LabelRecord>, counts: Counters, rows: seq<TraceRow>,
                    catalog: Catalog, source: map<LabelKey, Labels>, tasks: set<string>)
    requires Tables(candidates, labels, counts, rows, catalog, source, tasks)
    ensures forall row :: row in rows ==> ValidTrace(row)
    ensures labels == FlatMap(rows, LabelRows(catalog, source, tasks))
  {
  }

  /** Every label record of the table comes from some request, carries what the joiner made for its key, and carries
      value only if it is that request's exposure. */
  ghost predicate LabelsCarry(labels: seq<LabelRecord>, rows: seq<TraceRow>, source: map<LabelKey, Labels>,
                              tasks: set<string>) {
    forall l :: l in labels ==> CarriesSource(l, source, tasks) && exists row :: row in rows && CarriesValue(l, row, source)
  }

  lemma LabelTableMeans(rows: seq<TraceRow>, catalog: Catalog, source: map<LabelKey, Labels>, tasks: set<string>)
    requires forall row :: row in rows ==> ValidTrace(row)
    ensures LabelsCarry(FlatMap(rows, LabelRows(catalog, source, tasks)), rows, source, tasks)
  {
    hide ValidTrace, LabelsOf, CarriesSource, CarriesValue;
    FlatMapContains(rows, LabelRows(catalog, source, tasks));
    forall l | l in FlatMap(rows, LabelRows(catalog, source, tasks))
      ensures CarriesSource(l, source, tasks) && exists row :: row in rows && CarriesValue(l, row, source)
    {
      var row :| row in rows && l in LabelRows(catalog, source, tasks)(row);
      LabelsSize(row, catalog, source, tasks);
      var k :| 0 <= k < row.recallCount && LabelsOf(row, catalog, source, tasks)[k] == l;
      LabelMeans(row, catalog, source, tasks, k);
    }
  }

  lemma LabelsSize(row: TraceRow, catalog: Catalog, source: map<LabelKey, Labels>, tasks: set<string>)
    requires ValidTrace(row)
    ensures |LabelsOf(row, catalog, source, tasks)| == row.recallCount
  {
  }

  /** Impression times follow user, session and request in this order, ten seconds to a request. */
  lemma ImpressionTimesOrder(u1: int, s1: int, r1: int, u2: int, s2: int, r2: int)
    requires 0 <= s1 < 100 && 0 <= s2 < 100 && 0 <= r1 < 100 && 0 <= r2 < 100
    ensures ImpressionTime(u1, s1, r1) < ImpressionTime(u2, s2, r2) <==>
      u1 < u2 || (u1 == u2 && (s1 < s2 || (s1 == s2 && r1 < r2)))
    ensures ImpressionTime(u1, s1, r1 + 1) == ImpressionTime(u1, s1, r1) + 10
  {
  }

  lemma RowsOfAll(trajectories: seq<seq<TraceRow>>, user: nat)
    requires user < |trajectories|
    ensures forall row :: row in trajectories[user] ==> row in AllRows(trajectories)
  {
    var same := (rows: seq<TraceRow>) => rows;
    var front, back := trajectories[..user], trajectories[user + 1..];
    assert trajectories == front + [trajectories[user]] + back;
    FlatMapConcat(front + [trajectories[user]], back, same);
    FlatMapSnoc(front, trajectories[user], same);
  }

  lemma {:induction false} RequestPerRow(trajectories: seq<seq<TraceRow>>)
    ensures |AllRequests(trajectories)| == |AllRows(trajectories)|
  {
    if trajectories != [] {
      RequestPerRow(trajectories[..|trajectories| - 1]);
    }
  }

  /** The five counters account for every request, and none is lost at the mix stage. */
  lemma {:induction false} StagesAddUp(rows: seq<TraceRow>, catalog: Catalog)
    requires forall row :: row in rows ==> ValidTrace(row)
    ensures StageCount(rows, catalog, RecallMiss) + StageCount(rows, catalog, CoarseMiss)
      + StageCount(rows, catalog, FineRankMiss) + StageCount(rows, catalog, ServedOracle) == |rows|
    ensures StageCount(rows, catalog, MixRankMiss) == 0
  {
    hide StageOf, StageCount;
    if rows == [] {
      NoStages(catalog);
    } else {
      var front, last := rows[..|rows| - 1], rows[|rows| - 1];
      StagesAddUp(front, catalog);
      assert rows == front + [last];
      StageSnoc(front, last, catalog, RecallMiss);
      StageSnoc(front, last, catalog, CoarseMiss);
      StageSnoc(front, last, catalog, FineRankMiss);
      StageSnoc(front, last, catalog, MixRankMiss);
      StageSnoc(front, last, catalog, ServedOracle);
      NeverMix(catalog, last);
    }
  }

  lemma NoStages(catalog: Catalog)
    ensures forall stage: Stage :: StageCount([], catalog, stage) == 0
  {
  }

  lemma NeverMix(catalog: Catalog, row: TraceRow)
    requires ValidTrace(row)
    ensures StageOf(catalog, row) != MixRankMiss
  {
    AttributionMeans(row, catalog);
  }

  // ---------------------------------------------------------------------------------------------
  // Closure of the whole dataset.

  /** Passes validation, with distinct ids at both stages. */
  ghost predicate Closed(row: TraceRow) {
    ValidTrace(row) && Distinct(row.recalledIds) && Distinct(row.candidateIds)
  }

  function Total(rows: seq<TraceRow>, f: TraceRow -> nat): nat {
    if rows == [] then 0 else Total(rows[..|rows| - 1], f) + f(rows[|rows| - 1])
  }

  /** Candidate and label tables agree key by key. */
  ghost predicate KeyAligned(candidates: seq<CandidateRecord>, labels: seq<LabelRecord>) {
    |candidates| == |labels| && forall k :: 0 <= k < |candidates| ==>
      && labels[k].requestId == candidates[k].requestId && labels[k].candidateId == candidates[k].candidateId
      && labels[k].poi == candidates[k].poi
  }

  /** One label record for each recalled candidate, one exposure a request, and a pass for each fine candidate. */
  ghost predicate ClosedTables(candidates: seq<CandidateRecord>, labels: seq<LabelRecord>, rows: seq<TraceRow>) {
    && KeyAligned(candidates, labels)
    && |candidates| == Total(rows, (row: TraceRow) => row.recallCount)
    && |Filter(candidates, Passed)| == Total(rows, (row: TraceRow) => row.coarseCount)
    && |Filter(candidates, Exposed)| == |rows|
  }

  lemma ClosedTablesSnoc(candidates: seq<CandidateRecord>, labels: seq<LabelRecord>, rows: seq<TraceRow>, row: TraceRow,
                         more: seq<CandidateRecord>, moreLabels: seq<LabelRecord>)
    requires ClosedTables(candidates, labels, rows) && ClosedTables(more, moreLabels, [row])
    ensures ClosedTables(candidates + more, labels + moreLabels, rows + [row])
  {
    TotalSnoc(rows, row, (r: TraceRow) => r.recallCount);
    TotalSnoc(rows, row, (r: TraceRow) => r.coarseCount);
    FilterConcat(candidates, more, Passed);
    FilterConcat(candidates, more, Exposed);
  }

  lemma TotalSnoc(rows: seq<TraceRow>, row: TraceRow, f: TraceRow -> nat)
    ensures Total([row], f) == f(row)
    ensures Total(rows + [row], f) == Total(rows, f) + f(row)
  {
    assert [row][..0] == [] && (rows + [row])[..|rows|] == rows;
  }

  lemma RequestTables(row: TraceRow, catalog: Catalog, source: map<LabelKey, Labels>, tasks: set<string>)
    requires Closed(row)
    ensures ClosedTables(CandidatesOf(row, catalog), LabelsOf(row, catalog, source, tasks), [row])
  {
    RequestCloses(row, catalog, source, tasks);
    TotalSnoc([], row, (r: TraceRow) => r.recallCount);
    TotalSnoc([], row, (r: TraceRow) => r.coarseCount);
  }

  /** Requests that close one by one close together. */
  lemma {:induction false} TablesClose(rows: seq<TraceRow>, catalog: Catalog, source: map<LabelKey, Labels>,
                                       tasks: set<string>)
    requires forall row :: row in rows ==> Closed(row)
    ensures ClosedTables(FlatMap(rows, CandidateRows(catalog)), FlatMap(rows, LabelRows(catalog, source, tasks)), rows)
  {
    if rows != [] {
      hide ClosedTables, ValidTrace, CandidatesOf, LabelsOf;
      var front, last := rows[..|rows| - 1], rows[|rows| - 1];
      assert rows == front + [last];
      TablesClose(front, catalog, source, tasks);
      RequestTables(last, catalog, source, tasks);
      ClosedTablesSnoc(FlatMap(front, CandidateRows(catalog)), FlatMap(front, LabelRows(catalog, source, tasks)), front,
                       last, CandidatesOf(last, catalog), LabelsOf(last, catalog, source, tasks));
    }
  }

  /** The tables are closed, and the four live counters add up to the number of requests. */
  ghost predicate ClosedDataset(d: Dataset, rows: seq<TraceRow>) {
    && ClosedTables(d.candidates, d.labels, rows)
    && |d.requests| == |rows| == d.total
    && d.attribution.mixRankMiss == 0
    && d.attribution.recallMiss + d.attribution.coarseMiss + d.attribution.fineRankMiss + d.attribution.servedOracle
       == d.total
  }

  // ---------------------------------------------------------------------------------------------
  // Simulated requests.

  /** The trace row of a simulated exposure, with what the policy and the corpus oracle add to it. */
  function Traced(w: World, user: int, requestId: string, row: Row, features: seq<Features>, scores: seq<real>,
                  oracleScores: seq<real>, oracle: Item): TraceRow {
    var b := row.batch;
    var action := IndexOf(b.items, row.item);
    TraceRow(requestId, user, row.session, row.request, row.item, b.items, b.routes, features, scores,
             |b.recalledItems|, |b.items|, if action.Some? && action.value < |features| then features[action.value] else [],
             row.response.watchMinutes, row.returned, b.recalledItems, b.recalledRoutes, b.recallScores, b.coarseScores,
             oracleScores, oracle)
  }

  /** What a run's log adds to its exposures: request ids, the policy's features and scores, the corpus oracle. */
  datatype Trace = Trace(
    requestId: (int, Row) -> string, features: (int, Row, Item) -> Features, score: (int, Row, Item) -> real,
    oracleScore: (int, Row, Item) -> real, oracle: (int, Row) -> Item) {
    function RowOf(w: World, user: int, row: Row): TraceRow {
      Traced(w, user, requestId(user, row), row, Map(row.batch.items, (x: Item) => features(user, row, x)),
             Map(row.batch.items, (x: Item) => score(user, row, x)),
             Map(row.batch.recalledItems, (x: Item) => oracleScore(user, row, x)), oracle(user, row))
    }

    function Trajectory(w: World, user: int, rows: seq<Row>): seq<TraceRow> {
      Map(rows, (row: Row) => RowOf(w, user, row))
    }
  }

  /** Every exposure of every simulated trajectory validates, with distinct ids at both stages. */
  lemma SimulatedRowsValidate(w: World, user: int, trace: Trace)
    requires Solo(w, user).Success?
    ensures forall row :: row in trace.Trajectory(w, user, Solo(w, user).value) ==> Closed(row)
  {
    hide Solo;
    TrajectoryIsSound(w, user);
    var rows := Solo(w, user).value;
    forall k | 0 <= k < |rows| ensures Closed(trace.Trajectory(w, user, rows)[k]) {
      assert rows[k] in rows;
      GoodRowCloses(w, user, rows[k], trace);
    }
  }

  lemma GoodRowCloses(w: World, user: int, row: Row, trace: Trace)
    requires GoodRow(w, row)
    ensures Closed(trace.RowOf(w, user, row))
  {
  }

  /** Each user's traced solo trajectory. */
  ghost predicate Simulated(w: World, users: seq<int>, trace: Trace, trajectories: seq<seq<TraceRow>>) {
    |trajectories| == |users| && forall i :: 0 <= i < |users| ==>
      Solo(w, users[i]).Success? && trajectories[i] == trace.Trajectory(w, users[i], Solo(w, users[i]).value)
  }

  lemma {:induction false} SimulatedCloses(w: World, users: seq<int>, trace: Trace, trajectories: seq<seq<TraceRow>>)
    requires Simulated(w, users, trace, trajectories)
    ensures forall row :: row in AllRows(trajectories) ==> Closed(row)
  {
    if trajectories != [] {
      hide Solo, Closed;
      var n := |users| - 1;
      SimulatedFront(w, users, trace, trajectories);
      SimulatedCloses(w, users[..n], trace, trajectories[..n]);
      SimulatedRowsValidate(w, users[n], trace);
      hide *;
    }
  }

  lemma SimulatedFront(w: World, users: seq<int>, trace: Trace, trajectories: seq<seq<TraceRow>>)
    requires Simulated(w, users, trace, trajectories) && trajectories != []
    ensures var n := |users| - 1;
      && Simulated(w, users[..n], trace, trajectories[..n]) && Solo(w, users[n]).Success?
      && AllRows(trajectories) == AllRows(trajectories[..n]) + trace.Trajectory(w, users[n], Solo(w, users[n]).value)
  {
    hide Solo;
  }

  /** The dataset of a population run: it fails only when the simulation itself does, and always closes. */
  method SimulateDataset(w: World, users: seq<int>, trace: Trace, catalog: Catalog, source: map<LabelKey, Labels>,
                         tasks: set<string>)
    returns (r: Result<Dataset, string>, ghost trajectories: seq<seq<TraceRow>>)
    ensures r.Failure? <==> SomeoneFails(w, users)
    ensures r.Success? ==> Simulated(w, users, trace, trajectories) && ClosedDataset(r.value, AllRows(trajectories))
  {
    hide SomeoneFails, Tables, ClosedDataset, ValidTrace;
    trajectories := [];
    var results, _ := RunPopulation(w, users);
    if results.Failure? {
      return Failure(results.error), trajectories;
    }
    var traced := seq(|users|, i requires 0 <= i < |users| => trace.Trajectory(w, users[i], results.value[i].rows));
    r := Build(traced, catalog, source, tasks);
    trajectories := traced;
    RunCloses(w, users, trace, results.value, traced);
    BuiltCloses(traced, catalog, source, tasks, r);
  }

  lemma RunCloses(w: World, users: seq<int>, trace: Trace, results: seq<Totals>, traced: seq<seq<TraceRow>>)
    requires AllServed(w, users, results) && |traced| == |users|
    requires forall i :: 0 <= i < |users| ==> traced[i] == trace.Trajectory(w, users[i], results[i].rows)
    ensures Simulated(w, users, trace, traced) && !SomeoneFails(w, users)
    ensures forall row :: row in AllRows(traced) ==> Closed(row)
  {
    hide Solo, Closed;
    forall i | 0 <= i < |users| ensures Solo(w, users[i]) == Success(results[i].rows) {
      assert Served(w, users[i], results[i]);
    }
    SimulatedCloses(w, users, trace, traced);
  }

  lemma BuiltCloses(trajectories: seq<seq<TraceRow>>, catalog: Catalog, source: map<LabelKey, Labels>, tasks: set<string>,
                    r: Result<Dataset, string>)
    requires forall row :: row in AllRows(trajectories) ==> Closed(row)
    requires r.Success? <==> forall row :: row in AllRows(trajectories) ==> ValidTrace(row)
    requires r.Success? ==>
      && r.value.requests == AllRequests(trajectories)
      && Tables(r.value.candidates, r.value.labels, r.value.attribution, AllRows(trajectories), catalog, source, tasks)
      && r.value.total == |AllRows(trajectories)|
    ensures r.Success? && ClosedDataset(r.value, AllRows(trajectories))
  {
    var rows := AllRows(trajectories);
    TablesClose(rows, catalog, source, tasks);
    StagesAddUp(rows, catalog);
    RequestPerRow(trajectories);
    hide AllRows, AllRequests, ValidTrace, ClosedTables, StageCount;
    var counts := r.value.attribution;
    assert counts.Of(RecallMiss) == StageCount(rows, catalog, RecallMiss);
    assert counts.Of(CoarseMiss) == StageCount(rows, catalog, CoarseMiss);
    assert counts.Of(FineRankMiss) == StageCount(rows, catalog, FineRankMiss);
    assert counts.Of(MixRankMiss) == StageCount(rows, catalog, MixRankMiss);
    assert counts.Of(ServedOracle) == StageCount(rows, catalog, ServedOracle);
  }
}
