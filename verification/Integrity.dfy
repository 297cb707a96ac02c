/** Reconciling table counts with runtime KPIs (analytics/pipeline_integrity.py) and
    the pre-flight of the semantic correlation (analytics/semantic_correlation_upstream.py).

    A metric stands for the KPI and for the count that it is reconciled with.
 */
module Integrity {
  import opened Common

  datatype Metric =
    | Reviews | ReviewIntelligence | GraphNodes | GraphEdges | FusionSignals | AnomalyEvents
    | SemanticClusters | ForecastSnapshots | ExecutiveInsights | MetricSnapshots
    | NlpResults | Airlines

  /** The metrics that have a KPI, in the order of the reconciliation. */
  const KPI_METRICS := [Reviews, ReviewIntelligence, GraphNodes, GraphEdges, FusionSignals, AnomalyEvents,
                        SemanticClusters, ForecastSnapshots, ExecutiveInsights, MetricSnapshots]

  /** A KPI is a finite number or something else: missing, text, not-a-number. */
  datatype Value = Number(value: real) | NoNumber

  /** A count of -1 means that its query failed. */
  type Counts = map<Metric, int>
  type Kpis = map<Metric, Value>

  function PositiveInt(v: Value): nat {
    match v
    case Number(x) => if x >= 0.0 then x.Floor else 0
    case NoNumber => 0
  }

  function Max(a: int, b: int): int {
    if a >= b then a else b
  }

  function CountOf(counts: Counts, m: Metric): nat {
    if m in counts && counts[m] >= 0 then counts[m] else 0
  }

  function LiveOf(kpis: Kpis, m: Metric): nat {
    if m in kpis then PositiveInt(kpis[m]) else 0
  }

  // ----- reconciliation -----

  /** The metrics `done` get the larger of their count and their KPI. */
  function JoinOn(counts: Counts, kpis: Kpis, done: seq<Metric>): Counts {
    map m: Metric | m in counts || m in done ::
      if m in done then Max(CountOf(counts, m), LiveOf(kpis, m)) else counts[m]
  }

  function Join(counts: Counts, kpis: Kpis): Counts {
    JoinOn(counts, kpis, KPI_METRICS)
  }

  predicate NeedsReconciling(counts: Counts, kpis: Kpis, m: Metric) {
    m in KPI_METRICS && LiveOf(kpis, m) > CountOf(counts, m)
  }

  /** The KPI shows data where the table shows none. */
  predicate Impossible(counts: Counts, kpis: Kpis, m: Metric) {
    m in KPI_METRICS && LiveOf(kpis, m) > 0 && CountOf(counts, m) == 0
  }

  datatype Source = PostgresAndRuntime | Postgres | Runtime | Empty

  datatype Lineage = Lineage(source: Source, postgres: nat, runtime: nat, authoritative: nat, reconciled: bool)

  datatype Reconciliation = Reconciliation(
    counts: Counts, reconciledFields: seq<Metric>, impossibleStates: seq<Metric>,
    lineage: map<Metric, Lineage>, consistent: bool)

  function LineageOf(counts: Counts, kpis: Kpis, m: Metric): Lineage {
    var db, live := CountOf(counts, m), LiveOf(kpis, m);
    var source :=
      if live > db then PostgresAndRuntime
      else if db > 0 then Postgres
      else if live > 0 then Runtime
      else Empty;
    Lineage(source, db, live, Max(db, live), live > db)
  }

  function LineagesOf(counts: Counts, kpis: Kpis, done: seq<Metric>): map<Metric, Lineage> {
    if done == [] then map[]
    else
      var pre, m := done[..|done| - 1], done[|done| - 1];
      LineagesOf(counts, kpis, pre)[m := LineageOf(counts, kpis, m)]
  }

  /** The runtime alone is never named as the source. */
  lemma RuntimeIsNeverTheSource(counts: Counts, kpis: Kpis, m: Metric)
    ensures var x := LineageOf(counts, kpis, m);
            && x.source != Runtime
            && (x.source == PostgresAndRuntime <==> x.reconciled)
            && (x.source == Empty <==> x.authoritative == 0)
  {
  }

  /** The metrics among `done` that need reconciling, in order. */
  function ReconciledOf(counts: Counts, kpis: Kpis, done: seq<Metric>): seq<Metric> {
    if done == [] then []
    else
      var pre, m := done[..|done| - 1], done[|done| - 1];
      ReconciledOf(counts, kpis, pre) + if LiveOf(kpis, m) > CountOf(counts, m) then [m] else []
  }

  function ImpossibleOf(counts: Counts, kpis: Kpis, done: seq<Metric>): seq<Metric> {
    if done == [] then []
    else
      var pre, m := done[..|done| - 1], done[|done| - 1];
      ImpossibleOf(counts, kpis, pre) + if LiveOf(kpis, m) > 0 && CountOf(counts, m) == 0 then [m] else []
  }

  /** Exactly what is listed, and where each value is said to come from. */
  lemma {:induction false} ListsAreExact(counts: Counts, kpis: Kpis, done: seq<Metric>, m: Metric)
    ensures m in ReconciledOf(counts, kpis, done) <==> m in done && LiveOf(kpis, m) > CountOf(counts, m)
    ensures m in ImpossibleOf(counts, kpis, done) <==> m in done && LiveOf(kpis, m) > 0 && CountOf(counts, m) == 0
    ensures m in LineagesOf(counts, kpis, done) <==> m in done
    ensures m in done ==> LineagesOf(counts, kpis, done)[m] == LineageOf(counts, kpis, m)
  {
    if done != [] {
      var pre, last := done[..|done| - 1], done[|done| - 1];
      hide *;
      assert done == pre + [last];
      ListsAreExact(counts, kpis, pre, m);
      ListsGrow(counts, kpis, pre, last);
    }
  }

  lemma ListsGrow(counts: Counts, kpis: Kpis, done: seq<Metric>, m: Metric)
    ensures ReconciledOf(counts, kpis, done + [m])
            == ReconciledOf(counts, kpis, done) + if LiveOf(kpis, m) > CountOf(counts, m) then [m] else []
    ensures ImpossibleOf(counts, kpis, done + [m])
            == ImpossibleOf(counts, kpis, done) + if LiveOf(kpis, m) > 0 && CountOf(counts, m) == 0 then [m] else []
    ensures LineagesOf(counts, kpis, done + [m]) == LineagesOf(counts, kpis, done)[m := LineageOf(counts, kpis, m)]
  {
    hide LineageOf, LiveOf, CountOf;
    assert (done + [m])[..|done|] == done;
  }

  /** Whatever the KPIs show without a table is among what gets reconciled. */
  lemma ImpossibleIsReconciled(counts: Counts, kpis: Kpis, done: seq<Metric>)
    ensures ImpossibleOf(counts, kpis, done) != [] ==> ReconciledOf(counts, kpis, done) != []
  {
    var i := ImpossibleOf(counts, kpis, done);
    if i != [] {
      assert i[0] in i;
      ListsAreExact(counts, kpis, done, i[0]);
      assert i[0] in ReconciledOf(counts, kpis, done);
    }
  }

  lemma MetricsAreDistinct(i: nat, j: nat)
    requires i < j < |KPI_METRICS|
    ensures KPI_METRICS[i] != KPI_METRICS[j]
  {
  }

  lemma MetricIsNew(k: nat)
    requires k < |KPI_METRICS|
    ensures KPI_METRICS[k] !in KPI_METRICS[..k]
    ensures KPI_METRICS[..k + 1] == KPI_METRICS[..k] + [KPI_METRICS[k]]
    ensures KPI_METRICS[..k + 1][..k] == KPI_METRICS[..k]
  {
    forall i | 0 <= i < k ensures KPI_METRICS[i] != KPI_METRICS[k] { MetricsAreDistinct(i, k); }
  }

  lemma JoinStep(counts: Counts, kpis: Kpis, done: seq<Metric>, m: Metric)
    requires m !in done
    ensures CountOf(JoinOn(counts, kpis, done), m) == CountOf(counts, m)
    ensures JoinOn(counts, kpis, done + [m])
            == JoinOn(counts, kpis, done)[m := Max(CountOf(counts, m), LiveOf(kpis, m))]
  {
  }

  /** A readable count above 0, else 0. */
  function ReadableCount(counts: Counts, m: Metric): nat {
    if m in counts && counts[m] > 0 then counts[m] else 0
  }

  /** A KPI of one or more without its fraction, else 0. */
  function WholeKpi(kpis: Kpis, m: Metric): nat {
    if m in kpis && kpis[m].Number? && kpis[m].value >= 1.0 then kpis[m].value.Floor else 0
  }

  /** What the report says of a metric with this count and this KPI. */
  predicate ByNumbers(db: nat, live: nat, count: int, x: Lineage, reconciled: bool, impossible: bool) {
    && count == (if live > db then live else db)
    && (reconciled <==> live > db) && (impossible <==> live > 0 && db == 0)
    && x == Lineage(if live > db then PostgresAndRuntime else if db > 0 then Postgres else Empty, db, live,
                    if live > db then live else db, live > db)
  }

  lemma MetricByNumbers(counts: Counts, kpis: Kpis, m: Metric)
    ensures CountOf(counts, m) == ReadableCount(counts, m) && LiveOf(kpis, m) == WholeKpi(kpis, m)
    ensures ByNumbers(ReadableCount(counts, m), WholeKpi(kpis, m), Max(CountOf(counts, m), LiveOf(kpis, m)),
                      LineageOf(counts, kpis, m), LiveOf(kpis, m) > CountOf(counts, m),
                      LiveOf(kpis, m) > 0 && CountOf(counts, m) == 0)
  {
  }

  lemma WithKpi(m: Metric)
    ensures m in KPI_METRICS <==> m !in {NlpResults, Airlines}
  {
    assert KPI_METRICS[0] == Reviews && KPI_METRICS[1] == ReviewIntelligence && KPI_METRICS[2] == GraphNodes;
    assert KPI_METRICS[3] == GraphEdges && KPI_METRICS[4] == FusionSignals && KPI_METRICS[5] == AnomalyEvents;
    assert KPI_METRICS[6] == SemanticClusters && KPI_METRICS[7] == ForecastSnapshots;
    assert KPI_METRICS[8] == ExecutiveInsights && KPI_METRICS[9] == MetricSnapshots;
  }

  lemma ReportedByNumbers(tableCounts: Counts, kpis: Kpis, r: Reconciliation, m: Metric)
    requires r.counts == Join(tableCounts, kpis) && r.reconciledFields == ReconciledOf(tableCounts, kpis, KPI_METRICS)
    requires r.impossibleStates == ImpossibleOf(tableCounts, kpis, KPI_METRICS)
    requires r.lineage == LineagesOf(tableCounts, kpis, KPI_METRICS)
    ensures m !in {NlpResults, Airlines} ==>
              && m in r.counts && m in r.lineage
              && ByNumbers(ReadableCount(tableCounts, m), WholeKpi(kpis, m), r.counts[m], r.lineage[m],
                           m in r.reconciledFields, m in r.impossibleStates)
    ensures m in {NlpResults, Airlines} ==>
              m !in r.lineage && m !in r.reconciledFields && m !in r.impossibleStates
              && (m in r.counts <==> m in tableCounts) && (m in tableCounts ==> r.counts[m] == tableCounts[m])
  {
    ListsAreExact(tableCounts, kpis, KPI_METRICS, m);
    MetricByNumbers(tableCounts, kpis, m);
    WithKpi(m);
    hide KPI_METRICS, ReconciledOf, ImpossibleOf, LineagesOf, CountOf, LiveOf;
    hide ReadableCount, WholeKpi, LineageOf, ByNumbers;
  }

  /** reconcile_integrity_metrics; `kpis` holds the stage results overlaid with the live
      KPIs.  Every disagreement is listed, so the report always calls itself consistent. */
  method Reconcile(tableCounts: Counts, kpis: Kpis) returns (r: Reconciliation)
    ensures r.counts == Join(tableCounts, kpis)
    ensures r.reconciledFields == ReconciledOf(tableCounts, kpis, KPI_METRICS)
    ensures r.impossibleStates == ImpossibleOf(tableCounts, kpis, KPI_METRICS)
    ensures r.lineage == LineagesOf(tableCounts, kpis, KPI_METRICS)
    ensures r.consistent
    // metric by metric: the larger of the readable count and the KPI without its fraction
    ensures forall m | m !in {NlpResults, Airlines} ::
              && m in r.counts && m in r.lineage
              && ByNumbers(ReadableCount(tableCounts, m), WholeKpi(kpis, m), r.counts[m], r.lineage[m],
                           m in r.reconciledFields, m in r.impossibleStates)
    ensures forall m | m in {NlpResults, Airlines} ::
              m !in r.lineage && m !in r.reconciledFields && m !in r.impossibleStates
              && (m in r.counts <==> m in tableCounts) && (m in tableCounts ==> r.counts[m] == tableCounts[m])
  {
    var counts := tableCounts;
    var reconciled: seq<Metric> := [];
    var impossible: seq<Metric> := [];
    var lineage: map<Metric, Lineage> := map[];
    assert JoinOn(tableCounts, kpis, []) == tableCounts;
    assert ReconciledOf(tableCounts, kpis, []) == [] && ImpossibleOf(tableCounts, kpis, []) == [];
    assert LineagesOf(tableCounts, kpis, []) == map[];
    hide *;
    for k := 0 to |KPI_METRICS|
      invariant counts == JoinOn(tableCounts, kpis, KPI_METRICS[..k])
      invariant reconciled == ReconciledOf(tableCounts, kpis, KPI_METRICS[..k])
      invariant impossible == ImpossibleOf(tableCounts, kpis, KPI_METRICS[..k])
      invariant lineage == LineagesOf(tableCounts, kpis, KPI_METRICS[..k])
    {
      var m := KPI_METRICS[k];
      ghost var done := KPI_METRICS[..k];
      MetricIsNew(k);
      JoinStep(tableCounts, kpis, done, m);
      ListsGrow(tableCounts, kpis, done, m);
      var dbVal, liveVal := CountOf(counts, m), LiveOf(kpis, m);
      var merged := Max(dbVal, liveVal);
      if liveVal > dbVal {
        reconciled := reconciled + [m];
      }
      if liveVal > 0 && dbVal == 0 {
        impossible := impossible + [m];
      }
      lineage := lineage[m := LineageOf(counts, kpis, m)];
      SameLineage(counts, tableCounts, kpis, m);
      counts := counts[m := merged];
    }
    assert KPI_METRICS[..|KPI_METRICS|] == KPI_METRICS;
    ImpossibleIsReconciled(tableCounts, kpis, KPI_METRICS);
    JoinIsOnAll(tableCounts, kpis);
    r := Reconciliation(counts, reconciled, impossible, lineage, |impossible| == 0 || |reconciled| > 0);
    forall m {
      ReportedByNumbers(tableCounts, kpis, r, m);
    }
  }

  lemma JoinIsOnAll(counts: Counts, kpis: Kpis)
    ensures Join(counts, kpis) == JoinOn(counts, kpis, KPI_METRICS)
  {
    hide KPI_METRICS;
  }

  lemma SameLineage(counts: Counts, tableCounts: Counts, kpis: Kpis, m: Metric)
    requires CountOf(counts, m) == CountOf(tableCounts, m)
    ensures LineageOf(counts, kpis, m) == LineageOf(tableCounts, kpis, m)
  {
  }

  lemma JoinedCount(counts: Counts, kpis: Kpis, m: Metric)
    ensures CountOf(Join(counts, kpis), m)
            == if m in KPI_METRICS then Max(CountOf(counts, m), LiveOf(kpis, m)) else CountOf(counts, m)
  {
    hide KPI_METRICS;
  }

  /** No readable count is lowered, and no count with a KPI stays unreadable. */
  lemma JoinNeverLowers(counts: Counts, kpis: Kpis, m: Metric)
    requires m in counts
    ensures m in Join(counts, kpis) && Join(counts, kpis)[m] >= counts[m]
    ensures m in KPI_METRICS ==> Join(counts, kpis)[m] >= 0
    ensures m !in KPI_METRICS ==> Join(counts, kpis)[m] == counts[m]
  {
  }

  /** Reconciling again with the same KPIs changes and reports nothing. */
  lemma JoinIsIdempotent(counts: Counts, kpis: Kpis)
    ensures Join(Join(counts, kpis), kpis) == Join(counts, kpis)
    ensures forall m :: !NeedsReconciling(Join(counts, kpis), kpis, m) && !Impossible(Join(counts, kpis), kpis, m)
  {
    var j := Join(counts, kpis);
    hide KPI_METRICS;
    forall m ensures !NeedsReconciling(j, kpis, m) && !Impossible(j, kpis, m) {
      JoinedCount(counts, kpis, m);
    }
    forall m | m in KPI_METRICS ensures Join(j, kpis)[m] == j[m] {
      JoinedCount(counts, kpis, m);
    }
  }

  /** Two sources of KPIs may be reconciled in either order. */
  lemma JoinsCommute(counts: Counts, first: Kpis, second: Kpis)
    ensures Join(Join(counts, first), second) == Join(Join(counts, second), first)
  {
    var a, b := Join(counts, first), Join(counts, second);
    hide KPI_METRICS;
    forall m | m in counts || m in KPI_METRICS ensures Join(a, second)[m] == Join(b, first)[m] {
      JoinedCount(counts, first, m);
      JoinedCount(counts, second, m);
    }
  }

  // ----- the cached snapshot -----

  ghost predicate Stale(cached: Counts, live: Kpis) {
    exists m :: Impossible(cached, live, m)
  }

  lemma StaleByNumbers(cached: Counts, live: Kpis)
    ensures Stale(cached, live) <==>
              exists m :: m !in {NlpResults, Airlines} && WholeKpi(live, m) > 0 && ReadableCount(cached, m) == 0
  {
    forall m ensures Impossible(cached, live, m) <==>
                     m !in {NlpResults, Airlines} && WholeKpi(live, m) > 0 && ReadableCount(cached, m) == 0
    {
      MetricByNumbers(cached, live, m);
      WithKpi(m);
      hide KPI_METRICS;
    }
    hide *;
    StaleIs(cached, live);
  }

  lemma StaleIs(cached: Counts, live: Kpis)
    ensures Stale(cached, live) <==> exists m :: Impossible(cached, live, m)
  {
    hide Impossible;
  }

  /** integrity_snapshot_cleanup: whether the cached snapshot is dropped. */
  method SnapshotCleanup(cached: Counts, live: Kpis) returns (stale: bool)
    ensures stale <==> Stale(cached, live)
    ensures stale <==>
              exists m :: m !in {NlpResults, Airlines} && WholeKpi(live, m) > 0 && ReadableCount(cached, m) == 0
  {
    StaleByNumbers(cached, live);
    stale := false;
    for k := 0 to |KPI_METRICS|
      invariant forall i | 0 <= i < k :: !Impossible(cached, live, KPI_METRICS[i])
    {
      if LiveOf(live, KPI_METRICS[k]) > 0 && CountOf(cached, KPI_METRICS[k]) == 0 {
        assert Impossible(cached, live, KPI_METRICS[k]);
        return true;
      }
    }
  }

  /** A snapshot reconciled with some live KPIs, whatever the stage results, is never
      dropped because of these KPIs. */
  lemma ReconciledIsNeverStale(counts: Counts, stage: Kpis, live: Kpis)
    ensures !Stale(Join(counts, stage + live), live)
  {
    forall m ensures !Impossible(Join(counts, stage + live), live, m) {
      if m in KPI_METRICS && LiveOf(live, m) > 0 {
        assert LiveOf(stage + live, m) == LiveOf(live, m);
      }
    }
  }

  // ----- stage contracts -----

  datatype Failure = TableUnreadable(key: Metric) | NeedsMore(key: Metric, minimum: int, actual: int)

  datatype Contract = Contract(satisfied: bool, failures: seq<Failure>)

  datatype Requirement = Requirement(key: Metric, minimum: int)

  function Actual(counts: Counts, m: Metric): int {
    if m in counts then counts[m] else 0
  }

  predicate Meets(counts: Counts, q: Requirement) {
    Actual(counts, q.key) >= 0 && Actual(counts, q.key) >= q.minimum
  }

  function FailuresOf(requirements: seq<Requirement>, counts: Counts): seq<Failure> {
    if requirements == [] then []
    else
      var pre, q := requirements[..|requirements| - 1], requirements[|requirements| - 1];
      FailuresOf(pre, counts)
        + if Actual(counts, q.key) < 0 then [TableUnreadable(q.key)]
          else if Actual(counts, q.key) < q.minimum then [NeedsMore(q.key, q.minimum, Actual(counts, q.key))]
          else []
  }

  lemma {:induction false} FailuresExactlyWhen(requirements: seq<Requirement>, counts: Counts)
    ensures FailuresOf(requirements, counts) == [] <==>
            forall i | 0 <= i < |requirements| :: Meets(counts, requirements[i])
  {
    if requirements != [] {
      FailuresExactlyWhen(requirements[..|requirements| - 1], counts);
    }
  }

  /** Each failure names a requirement that is not met, and how. */
  lemma {:induction false} FailuresAreExact(requirements: seq<Requirement>, counts: Counts, f: Failure)
    ensures f in FailuresOf(requirements, counts) <==>
            exists q :: q in requirements &&
              var actual := if q.key in counts then counts[q.key] else 0;
              if actual < 0 then f == TableUnreadable(q.key)
              else actual < q.minimum && f == NeedsMore(q.key, q.minimum, actual)
  {
    if requirements != [] {
      var pre, q := requirements[..|requirements| - 1], requirements[|requirements| - 1];
      FailuresAreExact(pre, counts, f);
      assert requirements == pre + [q];
    }
  }

  /** check_stage_contract for a stage with requirements and given counts. */
  method CheckStageContract(requirements: seq<Requirement>, counts: Counts) returns (c: Contract)
    ensures c.satisfied <==> forall i | 0 <= i < |requirements| :: Meets(counts, requirements[i])
    ensures c.failures == FailuresOf(requirements, counts)
  {
    var failures: seq<Failure> := [];
    for k := 0 to |requirements|
      invariant failures == FailuresOf(requirements[..k], counts)
    {
      assert requirements[..k + 1][..k] == requirements[..k];
      var q := requirements[k];
      var actual := Actual(counts, q.key);
      if actual < 0 {
        failures := failures + [TableUnreadable(q.key)];
      } else if actual < q.minimum {
        failures := failures + [NeedsMore(q.key, q.minimum, actual)];
      }
    }
    assert requirements[..|requirements|] == requirements;
    FailuresExactlyWhen(requirements, counts);
    c := Contract(|failures| == 0, failures);
  }

  // ----- the pre-flight of the semantic correlation -----

  const FUSION := [Requirement(Reviews, 1), Requirement(GraphNodes, 1)]

  /** The result of an earlier stage: missing, some other value, or a dictionary. */
  datatype Blob<T> = Absent | NoDictionary | Dictionary(fields: T)

  datatype GraphFields = GraphFields(totalNodes: Value, totalEdges: Value)
  datatype MetadataFields = MetadataFields(metadataTotal: Value)
  datatype CrawlFields = CrawlFields(totalReviewsInDb: Value)

  datatype StageResults = StageResults(
    knowledgeGraph: Blob<GraphFields>, metadata: Blob<MetadataFields>, crawl: Blob<CrawlFields>)

  datatype Minimums = Minimums(graphNodes: int, metadata: int, reviews: int)

  /** What the earlier stages of the run claim for a metric. */
  function StageOf(s: StageResults, m: Metric): nat {
    match m
    case GraphNodes => if s.knowledgeGraph.Dictionary? then PositiveInt(s.knowledgeGraph.fields.totalNodes) else 0
    case GraphEdges => if s.knowledgeGraph.Dictionary? then PositiveInt(s.knowledgeGraph.fields.totalEdges) else 0
    case ReviewIntelligence => if s.metadata.Dictionary? then PositiveInt(s.metadata.fields.metadataTotal) else 0
    case Reviews => if s.crawl.Dictionary? then PositiveInt(s.crawl.fields.totalReviewsInDb) else 0
    case _ => 0
  }

  const UPSTREAM_METRICS := [GraphNodes, GraphEdges, ReviewIntelligence, Reviews, FusionSignals]

  /** The largest of what the database, the stages and the accumulated KPIs say. */
  function UpstreamOf(db: Counts, s: StageResults, kpis: Kpis, m: Metric): nat {
    Max(Max(CountOf(db, m), StageOf(s, m)), LiveOf(kpis, m))
  }

  function Raised(counts: Counts, m: Metric, value: nat): Counts {
    counts[m := Max(Actual(counts, m), value)]
  }

  lemma RaisedCount(counts: Counts, m: Metric, value: nat)
    ensures var r := Raised(counts, m, value);
            && r.Keys == counts.Keys + {m} && r[m] == Max(CountOf(counts, m), value)
            && (forall x :: CountOf(r, x) == if x == m then r[m] else CountOf(counts, x))
            && (forall x | x in counts && x != m :: r[x] == counts[x])
  {
  }

  method MergeStages(db: Counts, s: StageResults) returns (merged: Counts)
    ensures forall m :: CountOf(merged, m) == Max(CountOf(db, m), StageOf(s, m))
    ensures db.Keys <= merged.Keys <= db.Keys + {GraphNodes, GraphEdges, ReviewIntelligence, Reviews}
    ensures forall m | m in db && m !in {GraphNodes, GraphEdges, ReviewIntelligence, Reviews} :: merged[m] == db[m]
  {
    hide Raised, CountOf, PositiveInt;
    merged := db;
    if s.knowledgeGraph.Dictionary? {
      RaisedCount(merged, GraphNodes, PositiveInt(s.knowledgeGraph.fields.totalNodes));
      merged := Raised(merged, GraphNodes, PositiveInt(s.knowledgeGraph.fields.totalNodes));
      RaisedCount(merged, GraphEdges, PositiveInt(s.knowledgeGraph.fields.totalEdges));
      merged := Raised(merged, GraphEdges, PositiveInt(s.knowledgeGraph.fields.totalEdges));
    }
    if s.metadata.Dictionary? {
      RaisedCount(merged, ReviewIntelligence, PositiveInt(s.metadata.fields.metadataTotal));
      merged := Raised(merged, ReviewIntelligence, PositiveInt(s.metadata.fields.metadataTotal));
    }
    if s.crawl.Dictionary? {
      RaisedCount(merged, Reviews, PositiveInt(s.crawl.fields.totalReviewsInDb));
      merged := Raised(merged, Reviews, PositiveInt(s.crawl.fields.totalReviewsInDb));
    }
  }

  /** A number of one or more without its fraction, else 0. */
  function Whole(v: Value): nat {
    if v.Number? && v.value >= 1.0 then v.value.Floor else 0
  }

  /** The largest of the table count, the KPI and what the stage claims. */
  predicate Largest(count: int, db: Counts, kpis: Kpis, m: Metric, claim: nat) {
    && count >= ReadableCount(db, m) && count >= WholeKpi(kpis, m) && count >= claim
    && (count == ReadableCount(db, m) || count == WholeKpi(kpis, m) || count == claim)
  }

  lemma UpstreamByFields(db: Counts, s: StageResults, kpis: Kpis)
    ensures Largest(UpstreamOf(db, s, kpis, Reviews), db, kpis, Reviews,
                    if s.crawl.Dictionary? then Whole(s.crawl.fields.totalReviewsInDb) else 0)
    ensures Largest(UpstreamOf(db, s, kpis, ReviewIntelligence), db, kpis, ReviewIntelligence,
                    if s.metadata.Dictionary? then Whole(s.metadata.fields.metadataTotal) else 0)
    ensures Largest(UpstreamOf(db, s, kpis, GraphNodes), db, kpis, GraphNodes,
                    if s.knowledgeGraph.Dictionary? then Whole(s.knowledgeGraph.fields.totalNodes) else 0)
    ensures Largest(UpstreamOf(db, s, kpis, GraphEdges), db, kpis, GraphEdges,
                    if s.knowledgeGraph.Dictionary? then Whole(s.knowledgeGraph.fields.totalEdges) else 0)
    ensures Largest(UpstreamOf(db, s, kpis, FusionSignals), db, kpis, FusionSignals, 0)
    ensures {Reviews, ReviewIntelligence, GraphNodes, GraphEdges, FusionSignals} <= set m | m in UPSTREAM_METRICS
  {
    MetricByNumbers(db, kpis, Reviews);
    MetricByNumbers(db, kpis, ReviewIntelligence);
    MetricByNumbers(db, kpis, GraphNodes);
    MetricByNumbers(db, kpis, GraphEdges);
    MetricByNumbers(db, kpis, FusionSignals);
    assert UPSTREAM_METRICS[0] == GraphNodes && UPSTREAM_METRICS[1] == GraphEdges;
    assert UPSTREAM_METRICS[2] == ReviewIntelligence && UPSTREAM_METRICS[3] == Reviews;
    assert UPSTREAM_METRICS[4] == FusionSignals;
    hide ReadableCount, WholeKpi, CountOf, LiveOf, ByNumbers, LineageOf;
  }

  lemma UpstreamMetricsAreDistinct(i: nat, j: nat)
    requires i < j < |UPSTREAM_METRICS|
    ensures UPSTREAM_METRICS[i] != UPSTREAM_METRICS[j]
  {
  }

  /** merge_upstream_counts. */
  method MergeUpstreamCounts(db: Counts, s: StageResults, kpis: Kpis) returns (merged: Counts)
    ensures forall m :: m in merged <==> m in db || m in UPSTREAM_METRICS
    ensures forall m | m in UPSTREAM_METRICS :: merged[m] == UpstreamOf(db, s, kpis, m)
    ensures forall m | m in db && m !in UPSTREAM_METRICS :: merged[m] == db[m]
    // each by the field that stands for it
    ensures {Reviews, ReviewIntelligence, GraphNodes, GraphEdges, FusionSignals} <= merged.Keys
    ensures Largest(merged[Reviews], db, kpis, Reviews,
                    if s.crawl.Dictionary? then Whole(s.crawl.fields.totalReviewsInDb) else 0)
    ensures Largest(merged[ReviewIntelligence], db, kpis, ReviewIntelligence,
                    if s.metadata.Dictionary? then Whole(s.metadata.fields.metadataTotal) else 0)
    ensures Largest(merged[GraphNodes], db, kpis, GraphNodes,
                    if s.knowledgeGraph.Dictionary? then Whole(s.knowledgeGraph.fields.totalNodes) else 0)
    ensures Largest(merged[GraphEdges], db, kpis, GraphEdges,
                    if s.knowledgeGraph.Dictionary? then Whole(s.knowledgeGraph.fields.totalEdges) else 0)
    ensures Largest(merged[FusionSignals], db, kpis, FusionSignals, 0)
  {
    UpstreamByFields(db, s, kpis);
    hide Largest;
    merged := MergeStages(db, s);
    ghost var staged := merged;
    assert forall m | m in {GraphNodes, GraphEdges, ReviewIntelligence, Reviews} :: m in UPSTREAM_METRICS;
    assert JoinOn(staged, kpis, []) == staged;
    for k := 0 to |UPSTREAM_METRICS|
      invariant merged == JoinOn(staged, kpis, UPSTREAM_METRICS[..k])
    {
      var m := UPSTREAM_METRICS[k];
      ghost var done := UPSTREAM_METRICS[..k];
      UpstreamMetricIsNew(k);
      hide UPSTREAM_METRICS, JoinOn, LiveOf, CountOf, Raised;
      JoinStep(staged, kpis, done, m);
      RaisedCount(merged, m, LiveOf(kpis, m));
      RaisedIsUpdate(merged, m, LiveOf(kpis, m));
      merged := Raised(merged, m, LiveOf(kpis, m));
    }
    assert UPSTREAM_METRICS[..|UPSTREAM_METRICS|] == UPSTREAM_METRICS;
  }

  lemma RaisedIsUpdate(counts: Counts, m: Metric, value: nat)
    ensures Raised(counts, m, value) == counts[m := Max(CountOf(counts, m), value)]
  {
  }

  lemma UpstreamMetricIsNew(k: nat)
    requires k < |UPSTREAM_METRICS|
    ensures UPSTREAM_METRICS[k] !in UPSTREAM_METRICS[..k]
    ensures UPSTREAM_METRICS[..k + 1] == UPSTREAM_METRICS[..k] + [UPSTREAM_METRICS[k]]
  {
    forall i | 0 <= i < k ensures UPSTREAM_METRICS[i] != UPSTREAM_METRICS[k] { UpstreamMetricsAreDistinct(i, k); }
  }

  /** The counts of the graph tables as the consistency check reads them. */
  datatype GraphRuntime = GraphRuntime(nodeCount: int, edgeCount: int)

  datatype Blocker = NoReviews | MetadataUnreadable | NoMetadata | GraphUnreadable | NoGraphNodes

  datatype Validation = Validation(
    ready: bool, counts: Counts, contract: Contract, blockers: seq<Blocker>,
    falseEmptyPrevented: bool, runtimeReconciled: bool, graphNodes: int)

  datatype Crash = StageResultHasNoFields

  /** The largest number of graph nodes that any source shows. */
  function KnownNodes(db: Counts, s: StageResults, kpis: Kpis, runtime: GraphRuntime): nat {
    Max(UpstreamOf(db, s, kpis, GraphNodes), runtime.nodeCount)
  }

  method LoadUpstreamCounts(db: Counts, s: StageResults, kpis: Kpis)
    returns (counts: Counts, graphNodes: int, graphEdges: int, metadata: int, reviews: int)
    ensures graphNodes == UpstreamOf(db, s, kpis, GraphNodes) && graphEdges == UpstreamOf(db, s, kpis, GraphEdges)
    ensures metadata == UpstreamOf(db, s, kpis, ReviewIntelligence) && reviews == UpstreamOf(db, s, kpis, Reviews)
    ensures Actual(counts, GraphNodes) == graphNodes && Actual(counts, Reviews) == reviews && GraphNodes in counts
  {
    counts := MergeUpstreamCounts(db, s, kpis);
    hide CountOf, LiveOf, StageOf;
    graphNodes, graphEdges := Max(counts[GraphNodes], 0), Max(counts[GraphEdges], 0);
    metadata, reviews := counts[ReviewIntelligence], Max(counts[Reviews], 0);
  }

  method ListBlockers(reviews: int, metadata: int, graphNodes: int, least: Minimums) returns (blockers: seq<Blocker>)
    ensures NoReviews in blockers <==> reviews < least.reviews
    ensures MetadataUnreadable in blockers <==> metadata < 0
    ensures NoMetadata in blockers <==> 0 <= metadata < least.metadata
    ensures GraphUnreadable in blockers <==> graphNodes < 0
    ensures NoGraphNodes in blockers <==> 0 <= graphNodes < least.graphNodes
    ensures blockers == [] <==>
              reviews >= least.reviews && metadata >= Max(0, least.metadata) && graphNodes >= Max(0, least.graphNodes)
  {
    blockers := [];
    if reviews < least.reviews {
      blockers := blockers + [NoReviews];
    }
    if metadata < 0 {
      blockers := blockers + [MetadataUnreadable];
    } else if metadata < least.metadata {
      blockers := blockers + [NoMetadata];
    }
    if graphNodes < 0 {
      blockers := blockers + [GraphUnreadable];
    } else if graphNodes < least.graphNodes {
      blockers := blockers + [NoGraphNodes];
    }
  }

  /** validate_semantic_correlation_upstream.  The log line that reads the graph result
      of an earlier stage fails when that result is no dictionary. */
  method ValidateUpstream(db: Counts, s: StageResults, kpis: Kpis, runtime: GraphRuntime, least: Minimums)
    returns (r: Result<Validation, Crash>)
    ensures r.Err? <==> s.knowledgeGraph.NoDictionary?
    ensures r.Ok? ==>
              var v, nodes := r.value, KnownNodes(db, s, kpis, runtime);
              var reviews, metadata := UpstreamOf(db, s, kpis, Reviews), UpstreamOf(db, s, kpis, ReviewIntelligence);
              // the guard against false emptiness never has to step in, and no table is
              // reported as unreadable
              && v.falseEmptyPrevented == v.runtimeReconciled
              && MetadataUnreadable !in v.blockers && GraphUnreadable !in v.blockers
              && (forall f | f in v.contract.failures :: !f.TableUnreadable?)
              // "no graph nodes" means that every source is below the minimum
              && (NoGraphNodes in v.blockers <==> nodes < least.graphNodes)
              && v.graphNodes == nodes && GraphNodes in v.counts && v.counts[GraphNodes] == nodes
              && (NoReviews in v.blockers <==> reviews < least.reviews)
              && (NoMetadata in v.blockers <==> metadata < least.metadata)
              // ready means that everything is there
              && (v.ready <==> reviews >= Max(1, least.reviews) && metadata >= least.metadata
                               && nodes >= Max(1, least.graphNodes))
  {
    var counts, graphNodes, graphEdges, metadata, reviews := LoadUpstreamCounts(db, s, kpis);
    if s.knowledgeGraph.NoDictionary? {
      return Err(StageResultHasNoFields);
    }
    var runtimeReconciled := false;
    if runtime.nodeCount > graphNodes {
      graphNodes := runtime.nodeCount;
      counts := counts[GraphNodes := graphNodes];
      runtimeReconciled := true;
    }
    if runtime.edgeCount > graphEdges {
      graphEdges := runtime.edgeCount;
      counts := counts[GraphEdges := graphEdges];
      runtimeReconciled := true;
    }
    FusionContract(counts);
    hide FUSION, FailuresOf, Meets, StageOf, CountOf, LiveOf;
    var contract := CheckStageContract(FUSION, counts);
    var blockers := ListBlockers(reviews, metadata, graphNodes, least);
    var falseEmpty :=
      && |blockers| > 0
      && (runtime.nodeCount >= least.graphNodes || StageOf(s, GraphNodes) >= least.graphNodes)
      && graphNodes < least.graphNodes;
    if falseEmpty {
      graphNodes := if runtime.nodeCount != 0 then runtime.nodeCount else graphNodes;
      counts := counts[GraphNodes := graphNodes];
      contract := CheckStageContract(FUSION, counts);
      blockers := Without(blockers, NoGraphNodes);
    }
    var ready := |blockers| == 0 && contract.satisfied;
    r := Ok(Validation(ready, counts, contract, blockers, falseEmpty || runtimeReconciled, runtimeReconciled,
                       graphNodes));
  }

  function Without(blockers: seq<Blocker>, b: Blocker): seq<Blocker> {
    if blockers == [] then []
    else (if blockers[0] == b then [] else [blockers[0]]) + Without(blockers[1..], b)
  }

  lemma {:induction false} ReadableContract(requirements: seq<Requirement>, counts: Counts)
    requires forall i | 0 <= i < |requirements| :: Actual(counts, requirements[i].key) >= 0
    ensures forall f | f in FailuresOf(requirements, counts) :: !f.TableUnreadable?
  {
    if requirements != [] {
      ReadableContract(requirements[..|requirements| - 1], counts);
    }
  }

  lemma FusionContract(counts: Counts)
    requires Actual(counts, Reviews) >= 0 && Actual(counts, GraphNodes) >= 0
    ensures forall f | f in FailuresOf(FUSION, counts) :: !f.TableUnreadable?
    ensures (forall i | 0 <= i < |FUSION| :: Meets(counts, FUSION[i])) <==>
            Actual(counts, Reviews) >= 1 && Actual(counts, GraphNodes) >= 1
  {
    assert FUSION[0] == Requirement(Reviews, 1) && FUSION[1] == Requirement(GraphNodes, 1);
    ReadableContract(FUSION, counts);
  }
}
