/** The tables behind co-usage evidence and the statements one import transaction runs on them,
    proved to do what the ledger says. */
module CoUsageStore {
  import opened Collections
  import opened CoUsage

  datatype RunRow = RunRow(source: string, digest: string, observedAt: int)

  /** `skill_usage_observations`: (run id, skill id), unique. */
  type Observation = (int, SkillId)

  // --- The statement that rebuilds the pairs -----------------------------------------------------

  function ObservedAt(runs: map<int, RunRow>, ids: set<int>): (t: set<int>)
    requires ids <= runs.Keys
    ensures ids != {} ==> t != {}
  {
    var t := set id | id in ids :: runs[id].observedAt;
    assert forall id | id in ids :: runs[id].observedAt in t;
    t
  }

  /** CTE `window_runs`. */
  function WindowRuns(runs: map<int, RunRow>, cutoff: int, newest: int): set<int> {
    set id | id in runs && cutoff <= runs[id].observedAt <= newest
  }

  /** CTE `skill_counts`: the distinct runs in the window that observed the skill. */
  function SkillRuns(observations: set<Observation>, window: set<int>, skill: SkillId): set<int> {
    set o | o in observations && o.1 == skill && o.0 in window :: o.0
  }

  /** Join of CTE `ordered_pairs`: (run, anchor, related). */
  function AnchorRelated(observations: set<Observation>, window: set<int>): set<(int, SkillId, SkillId)> {
    set a, r | a in observations && r in observations && r.0 == a.0 && r.1 != a.1 && a.0 in window :: (a.0, a.1, r.1)
  }

  /** Its groups. */
  function OrderedPairs(joined: set<(int, SkillId, SkillId)>): set<Pair> {
    set j | j in joined :: (j.1, j.2)
  }

  /** The distinct runs of one group. */
  function PairRuns(joined: set<(int, SkillId, SkillId)>, p: Pair): (r: set<int>)
    ensures p in OrderedPairs(joined) ==> r != {}
  {
    var r := set j | j in joined && (j.1, j.2) == p :: j.0;
    assert p in OrderedPairs(joined) ==> (exists j :: j in joined && (j.1, j.2) == p && j.0 in r);
    r
  }

  lemma JoinedRunsCountSkills(observations: set<Observation>, window: set<int>, p: Pair)
    requires p in OrderedPairs(AnchorRelated(observations, window))
    ensures |SkillRuns(observations, window, p.0)| > 0 && |SkillRuns(observations, window, p.1)| > 0
    ensures |SkillRuns(observations, window, p.0)| * |SkillRuns(observations, window, p.1)| > 0
  {
    var j :| j in AnchorRelated(observations, window) && (j.1, j.2) == p;
    assert (j.0, j.1) in observations && (j.0, j.2) in observations;
    assert j.0 in SkillRuns(observations, window, p.0) && j.0 in SkillRuns(observations, window, p.1);
  }

  /** CTE `scored_pairs` and the inserted columns. */
  function ScoredRow(runs: map<int, RunRow>, observations: set<Observation>, window: set<int>, p: Pair,
      days: nat): PairRow
    requires p in OrderedPairs(AnchorRelated(observations, window)) && window <= runs.Keys
  {
    JoinedRunsCountSkills(observations, window, p);
    var pairRuns := PairRuns(AnchorRelated(observations, window), p);
    var anchor, related := |SkillRuns(observations, window, p.0)|, |SkillRuns(observations, window, p.1)|;
    PairRow(
      |pairRuns|,
      Round6(|pairRuns|, anchor),
      Round6(|pairRuns| * |window|, anchor * related),
      MaxOf(ObservedAt(runs, pairRuns)),
      days)
  }

  function RebuiltPairs(runs: map<int, RunRow>, observations: set<Observation>, days: nat): map<Pair, PairRow> {
    if runs.Keys == {} then map[]
    else
      var newest := MaxOf(ObservedAt(runs, runs.Keys));
      var window := WindowRuns(runs, newest - days * MICROS_PER_DAY, newest);
      map p | p in OrderedPairs(AnchorRelated(observations, window)) :: ScoredRow(runs, observations, window, p, days)
  }

  // --- The statements that sync the edges ----------------------------------------------------------

  /** Rows of one group of `eligible_pairs`. */
  function PassingRows(pairs: map<Pair, PairRow>, policy: Policy, e: Pair): set<PairRow> {
    set p | p in pairs && Passes(pairs[p], policy) && Undirected(p) == e :: pairs[p]
  }

  function ColumnValues(rows: set<PairRow>, column: PairRow -> int): (values: set<int>)
    ensures rows != {} ==> values != {}
  {
    var values := set r | r in rows :: column(r);
    assert forall r | r in rows :: column(r) in values;
    values
  }

  function MaxColumn(rows: set<PairRow>, column: PairRow -> int): int
    requires rows != {}
  {
    MaxOf(ColumnValues(rows, column))
  }

  /** CTE `eligible_pairs`: thresholds, then the maximum of every column per unordered pair. */
  function EligiblePairs(pairs: map<Pair, PairRow>, policy: Policy): map<Pair, PairRow> {
    map e | e in EligibleEdges(pairs, policy) && PassingRows(pairs, policy, e) != {} ::
      var rows := PassingRows(pairs, policy, e);
      PairRow(
        MaxColumn(rows, (r: PairRow) => r.runCount),
        MaxColumn(rows, (r: PairRow) => r.rate),
        MaxColumn(rows, (r: PairRow) => r.lift),
        MaxColumn(rows, (r: PairRow) => r.lastObservedAt),
        MaxColumn(rows, (r: PairRow) => r.windowDays))
  }

  /** UPDATE ... SET active = FALSE where active and not eligible. */
  function AfterDeactivation(edges: map<Pair, Edge>, eligible: set<Pair>): map<Pair, Edge> {
    map e | e in edges :: if edges[e].active && e !in eligible then edges[e].(active := false) else edges[e]
  }

  /** INSERT ... ON CONFLICT DO UPDATE where not active. */
  function AfterUpsert(edges: map<Pair, Edge>, eligible: map<Pair, PairRow>): map<Pair, Edge> {
    map e | e in edges.Keys + eligible.Keys ::
      if e in eligible && (e !in edges || !edges[e].active) then FreshEdge(eligible[e]) else edges[e]
  }

  // --- From tables to the ledger ---------------------------------------------------------------------

  ghost function RunAt(runs: map<int, RunRow>, observations: set<Observation>, id: int): Run
    requires id in runs
  {
    Run(runs[id].source, runs[id].digest, runs[id].observedAt, set o | o in observations && o.0 == id :: o.1)
  }

  ghost function LogOf(runs: map<int, RunRow>, observations: set<Observation>): set<Run> {
    set id | id in runs :: RunAt(runs, observations, id)
  }

  /** uq_skill_usage_observation_runs_source_digest, and the foreign key of observations. */
  ghost predicate ValidTables(runs: map<int, RunRow>, observations: set<Observation>) {
    && (forall i, j | i in runs && j in runs && runs[i].source == runs[j].source && runs[i].digest == runs[j].digest ::
          i == j)
    && (forall o | o in observations :: o.0 in runs)
  }

  ghost function Image(runs: map<int, RunRow>, observations: set<Observation>, ids: set<int>): set<Run> {
    set id | id in ids && id in runs :: RunAt(runs, observations, id)
  }

  lemma ImageSize(runs: map<int, RunRow>, observations: set<Observation>, ids: set<int>)
    requires ValidTables(runs, observations) && ids <= runs.Keys
    ensures |Image(runs, observations, ids)| == |ids|
  {
    var f := (id: int) => if id in runs then RunAt(runs, observations, id) else Run("", "", 0, {});
    forall i, j | i in ids && j in ids && f(i) == f(j) ensures i == j {
      assert runs[i].source == runs[j].source && runs[i].digest == runs[j].digest;
    }
    InjectiveImageSize(f, ids);
    assert Image(runs, observations, ids) == ImageOf(f, ids);
  }

  lemma SkillOfRun(runs: map<int, RunRow>, observations: set<Observation>, id: int, skill: SkillId)
    requires id in runs
    ensures skill in RunAt(runs, observations, id).skills <==> (id, skill) in observations
  {
    if skill in RunAt(runs, observations, id).skills {
      var o :| o in observations && o.0 == id && o.1 == skill;
      assert o == (id, skill);
    }
    if (id, skill) in observations {
      assert (id, skill).0 == id && (id, skill).1 == skill;
    }
  }

  lemma WindowRefines(runs: map<int, RunRow>, observations: set<Observation>, days: nat)
    requires runs.Keys != {}
    ensures LogOf(runs, observations) != {}
    ensures var newest := MaxOf(ObservedAt(runs, runs.Keys));
      Image(runs, observations, WindowRuns(runs, newest - days * MICROS_PER_DAY, newest))
        == Window(LogOf(runs, observations), days)
  {
    var log := LogOf(runs, observations);
    var some := Member(runs.Keys);
    assert RunAt(runs, observations, some) in log;
    assert forall id | id in runs ::
      RunAt(runs, observations, id) in log && RunAt(runs, observations, id).observedAt == runs[id].observedAt;
    assert ObservedAt(runs, runs.Keys) == Instants(log);
    var newest := MaxOf(ObservedAt(runs, runs.Keys));
    assert newest == Latest(log);
    var window := WindowRuns(runs, newest - days * MICROS_PER_DAY, newest);
    forall r ensures r in Image(runs, observations, window) <==> r in Window(log, days) {
      if r in Window(log, days) {
        var id :| id in runs && RunAt(runs, observations, id) == r;
        assert runs[id].observedAt in ObservedAt(runs, runs.Keys);
        assert id in window;
      }
    }
  }

  lemma SkillRunsRefine(runs: map<int, RunRow>, observations: set<Observation>, window: set<int>, skill: SkillId)
    requires window <= runs.Keys
    ensures SkillRuns(observations, window, skill) <= window
    ensures Image(runs, observations, SkillRuns(observations, window, skill))
      == Using(Image(runs, observations, window), skill)
  {
    forall id | id in window
      ensures id in SkillRuns(observations, window, skill) <==> skill in RunAt(runs, observations, id).skills
    {
      SkillOfRun(runs, observations, id, skill);
      assert (id, skill).0 == id && (id, skill).1 == skill;
    }
  }

  lemma JoinMeaning(observations: set<Observation>, window: set<int>, id: int, p: Pair)
    ensures (id, p.0, p.1) in AnchorRelated(observations, window)
      <==> id in window && p.0 != p.1 && (id, p.0) in observations && (id, p.1) in observations
  {
    if id in window && p.0 != p.1 && (id, p.0) in observations && (id, p.1) in observations {
      var a, r := (id, p.0), (id, p.1);
      assert (a.0, a.1, r.1) == (id, p.0, p.1);
    }
    if (id, p.0, p.1) in AnchorRelated(observations, window) {
      var a, r :| a in observations && r in observations && r.0 == a.0 && r.1 != a.1 && a.0 in window
        && (a.0, a.1, r.1) == (id, p.0, p.1);
      assert a == (id, p.0) && r == (id, p.1);
    }
  }

  lemma PairRunsRefine(runs: map<int, RunRow>, observations: set<Observation>, window: set<int>, p: Pair)
    requires window <= runs.Keys && p.0 != p.1
    ensures PairRuns(AnchorRelated(observations, window), p) <= window
    ensures Image(runs, observations, PairRuns(AnchorRelated(observations, window), p))
      == Together(Image(runs, observations, window), p)
  {
    var joined := AnchorRelated(observations, window);
    forall id ensures id in PairRuns(joined, p) <==> (id, p.0, p.1) in joined {
      if (id, p.0, p.1) in joined {
        var j := (id, p.0, p.1);
        assert (j.1, j.2) == p;
      }
      if id in PairRuns(joined, p) {
        var j :| j in joined && (j.1, j.2) == p && j.0 == id;
        assert j == (id, p.0, p.1);
      }
    }
    forall id | id in window
      ensures id in PairRuns(joined, p)
        <==> p.0 in RunAt(runs, observations, id).skills && p.1 in RunAt(runs, observations, id).skills
    {
      JoinMeaning(observations, window, id, p);
      SkillOfRun(runs, observations, id, p.0);
      SkillOfRun(runs, observations, id, p.1);
    }
    forall id | id in PairRuns(joined, p) ensures id in window {
      JoinMeaning(observations, window, id, p);
    }
  }

  lemma OrderedPairsRefine(runs: map<int, RunRow>, observations: set<Observation>, window: set<int>)
    requires window <= runs.Keys
    ensures OrderedPairs(AnchorRelated(observations, window)) == PairsIn(Image(runs, observations, window))
  {
    var joined, image := AnchorRelated(observations, window), Image(runs, observations, window);
    forall p: Pair ensures p in OrderedPairs(joined) <==> p in PairsIn(image) {
      PairsInMeaning(image, p);
      if p in OrderedPairs(joined) {
        var j :| j in joined && (j.1, j.2) == p;
        JoinMeaning(observations, window, j.0, p);
        PairRunsRefine(runs, observations, window, p);
        assert j.0 in PairRuns(joined, p);
        assert RunAt(runs, observations, j.0) in Image(runs, observations, PairRuns(joined, p));
      }
      if p in PairsIn(image) {
        PairRunsRefine(runs, observations, window, p);
        var r := AnyOf(Together(image, p));
        var id :| id in PairRuns(joined, p) && id in runs && RunAt(runs, observations, id) == r;
        var j :| j in joined && (j.1, j.2) == p && j.0 == id;
      }
    }
  }

  lemma InstantsRefine(runs: map<int, RunRow>, observations: set<Observation>, ids: set<int>)
    requires ids <= runs.Keys
    ensures ObservedAt(runs, ids) == Instants(Image(runs, observations, ids))
  {
    var image := Image(runs, observations, ids);
    assert forall id | id in ids ::
      RunAt(runs, observations, id) in image && RunAt(runs, observations, id).observedAt == runs[id].observedAt;
  }

  lemma ScoredRowRefines(runs: map<int, RunRow>, observations: set<Observation>, window: set<int>, p: Pair, days: nat)
    requires ValidTables(runs, observations) && window <= runs.Keys
    requires p in OrderedPairs(AnchorRelated(observations, window))
    ensures p in PairsIn(Image(runs, observations, window))
    ensures ScoredRow(runs, observations, window, p, days) == RowFor(Image(runs, observations, window), p, days)
  {
    hide Round6;
    var image, joined := Image(runs, observations, window), AnchorRelated(observations, window);
    OrderedPairsRefine(runs, observations, window);
    PairsInMeaning(image, p);
    PairRunsRefine(runs, observations, window, p);
    SkillRunsRefine(runs, observations, window, p.0);
    SkillRunsRefine(runs, observations, window, p.1);
    ImageSize(runs, observations, window);
    ImageSize(runs, observations, PairRuns(joined, p));
    ImageSize(runs, observations, SkillRuns(observations, window, p.0));
    ImageSize(runs, observations, SkillRuns(observations, window, p.1));
    InstantsRefine(runs, observations, PairRuns(joined, p));
  }

  lemma WindowIsPartOf(runs: map<int, RunRow>, cutoff: int, newest: int)
    ensures WindowRuns(runs, cutoff, newest) <= runs.Keys
  {
  }

  /** The rebuild statement computes the declared pair table, whatever ids the runs received. */
  lemma RebuildIsDeclared(runs: map<int, RunRow>, observations: set<Observation>, days: nat)
    requires ValidTables(runs, observations)
    ensures RebuiltPairs(runs, observations, days) == PairTable(LogOf(runs, observations), days)
  {
    hide ScoredRow, RowFor, OrderedPairs, PairsIn, Window, WindowRuns;
    if runs.Keys != {} {
      var newest := MaxOf(ObservedAt(runs, runs.Keys));
      var window := WindowRuns(runs, newest - days * MICROS_PER_DAY, newest);
      assert window <= runs.Keys by { WindowIsPartOf(runs, newest - days * MICROS_PER_DAY, newest); }
      WindowRefines(runs, observations, days);
      OrderedPairsRefine(runs, observations, window);
      forall p | p in OrderedPairs(AnchorRelated(observations, window))
        ensures ScoredRow(runs, observations, window, p, days) == RowFor(Image(runs, observations, window), p, days)
      {
        ScoredRowRefines(runs, observations, window, p, days);
      }
    } else {
      assert LogOf(runs, observations) == {};
    }
  }

  lemma ColumnMaximum(rows: set<PairRow>, top: PairRow, column: PairRow -> int)
    requires top in rows && forall r | r in rows :: column(r) <= column(top)
    ensures MaxColumn(rows, column) == column(top)
  {
    var values := ColumnValues(rows, column);
    assert column(top) in values;
    var highest := MaxOf(values);
    assert highest in values;
  }

  lemma GroupMaximum(pairs: map<Pair, PairRow>, policy: Policy, e: Pair)
    requires Symmetric(pairs) && e in EligibleEdges(pairs, policy)
    ensures e in pairs && (e.1, e.0) in pairs
    ensures e in EligiblePairs(pairs, policy) && EligiblePairs(pairs, policy)[e] == LargerDirection(pairs, e)
  {
    EligibleIffLargerDirectionPasses(pairs, policy, e);
    var rows := PassingRows(pairs, policy, e);
    var big, back := LargerDirection(pairs, e), (e.1, e.0);
    assert Undirected(e) == e && Undirected(back) == e;
    assert big in rows;
    forall r | r in rows ensures r == big.(rate := r.rate) && r.rate <= big.rate {
      var p :| p in pairs && Passes(pairs[p], policy) && Undirected(p) == e && pairs[p] == r;
      assert p == e || p == back;
    }
    ColumnMaximum(rows, big, (r: PairRow) => r.runCount);
    ColumnMaximum(rows, big, (r: PairRow) => r.rate);
    ColumnMaximum(rows, big, (r: PairRow) => r.lift);
    ColumnMaximum(rows, big, (r: PairRow) => r.lastObservedAt);
    ColumnMaximum(rows, big, (r: PairRow) => r.windowDays);
  }

  /** The two edge statements together are the sync of the ledger; and they touch as many rows as
      the eligible and active sets differ. */
  lemma EdgeStatementsAreSync(edges: map<Pair, Edge>, pairs: map<Pair, PairRow>, policy: Policy)
    requires Symmetric(pairs)
    ensures forall e | e in EligibleEdges(pairs, policy) :: e in pairs && (e.1, e.0) in pairs
    ensures var eligible := EligiblePairs(pairs, policy);
      && eligible.Keys == EligibleEdges(pairs, policy)
      && AfterUpsert(AfterDeactivation(edges, eligible.Keys), eligible) == SyncedEdges(edges, pairs, policy)
  {
    hide LargerDirection, PassingRows, MaxColumn;
    forall e | e in EligibleEdges(pairs, policy)
      ensures e in pairs && (e.1, e.0) in pairs
      ensures e in EligiblePairs(pairs, policy) && EligiblePairs(pairs, policy)[e] == LargerDirection(pairs, e)
    {
      GroupMaximum(pairs, policy, e);
    }
  }

  lemma TouchedRows(edges: map<Pair, Edge>, eligible: map<Pair, PairRow>)
    ensures (set e | e in edges && edges[e].active && e !in eligible) == ActiveEdges(edges) - eligible.Keys
    ensures var after := AfterDeactivation(edges, eligible.Keys);
      (set e | e in eligible && (e !in after || !after[e].active)) == eligible.Keys - ActiveEdges(edges)
  {
  }

  /** `_sync_co_usage_graph_edges`: the deactivating and the activating statement, with their row
      counts. */
  method SyncCoUsageGraphEdges(edges: map<Pair, Edge>, pairs: map<Pair, PairRow>, policy: Policy)
    returns (synced: map<Pair, Edge>, activated: nat, deactivated: nat)
    requires Symmetric(pairs)
    ensures forall e | e in EligibleEdges(pairs, policy) :: e in pairs && (e.1, e.0) in pairs
    ensures synced == SyncedEdges(edges, pairs, policy)
    ensures activated == |EligibleEdges(pairs, policy) - ActiveEdges(edges)|
    ensures deactivated == |ActiveEdges(edges) - EligibleEdges(pairs, policy)|
  {
    hide EligiblePairs, EligibleEdges, ActiveEdges, AfterDeactivation, AfterUpsert, SyncedEdges;
    EdgeStatementsAreSync(edges, pairs, policy);
    var eligible := EligiblePairs(pairs, policy);
    TouchedRows(edges, eligible);
    deactivated := |set e | e in edges && edges[e].active && e !in eligible|;
    var afterDeactivation := AfterDeactivation(edges, eligible.Keys);
    activated := |set e | e in eligible && (e !in afterDeactivation || !afterDeactivation[e].active)|;
    synced := AfterUpsert(afterDeactivation, eligible);
  }

  // --- The import transaction ----------------------------------------------------------------------

  /** What a transaction sees and stages. */
  datatype View = View(runs: map<int, RunRow>, observations: set<Observation>, pairs: map<Pair, PairRow>,
      edges: map<Pair, Edge>)

  ghost function LedgerOf(v: View): Ledger {
    Ledger(LogOf(v.runs, v.observations), v.pairs, v.edges)
  }

  lemma RefusedImports(l: Ledger, known: map<string, SkillId>, rec: Record, policy: Policy)
    ensures Known(l.log, rec.source, rec.digest) ==> Import(l, known, rec, policy) == (l, Duplicate)
    ensures !Known(l.log, rec.source, rec.digest) && Missing(rec.slugs, known) != [] ==>
      Import(l, known, rec, policy) == (l, UnknownSkills(Missing(rec.slugs, known)))
  {
  }

  lemma ResolvedImports(l: Ledger, known: map<string, SkillId>, rec: Record, policy: Policy)
    requires !Known(l.log, rec.source, rec.digest) && Missing(rec.slugs, known) == []
    requires forall s | s in rec.slugs :: s in known
    ensures Repeats(Ids(rec.slugs, known)) ==> Import(l, known, rec, policy) == (l, RepeatedSkill)
    ensures !Repeats(Ids(rec.slugs, known)) && Overflows(PairTable(l.log + {RunOf(rec, known)}, policy.windowDays)) ==>
      Import(l, known, rec, policy) == (l, NumericOverflow)
  {
    hide PairTable, Overflows, EligibleEdges, SyncedEdges, Repeats;
  }

  lemma CommittedImport(l: Ledger, known: map<string, SkillId>, rec: Record, policy: Policy, pairs: map<Pair, PairRow>,
      eligible: set<Pair>)
    requires !Known(l.log, rec.source, rec.digest) && Missing(rec.slugs, known) == []
    requires forall s | s in rec.slugs :: s in known
    requires !Repeats(Ids(rec.slugs, known))
    requires pairs == PairTable(l.log + {RunOf(rec, known)}, policy.windowDays) && !Overflows(pairs)
    requires eligible == EligibleEdges(pairs, policy) && forall e | e in eligible :: e in pairs && (e.1, e.0) in pairs
    ensures Import(l, known, rec, policy)
         == (Ledger(l.log + {RunOf(rec, known)}, pairs, SyncedEdges(l.edges, pairs, policy)),
             Imported(|rec.slugs|, |pairs|, |eligible - ActiveEdges(l.edges)|, |ActiveEdges(l.edges) - eligible|))
  {
    hide PairTable, Overflows, EligibleEdges, SyncedEdges, Repeats, ActiveEdges;
  }

  lemma KnownMeans(runs: map<int, RunRow>, observations: set<Observation>, source: string, digest: string)
    ensures Known(LogOf(runs, observations), source, digest)
      <==> exists id | id in runs :: runs[id].source == source && runs[id].digest == digest
  {
    if exists id | id in runs :: runs[id].source == source && runs[id].digest == digest {
      var id :| id in runs && runs[id].source == source && runs[id].digest == digest;
      assert RunAt(runs, observations, id) in LogOf(runs, observations);
    }
  }

  /** Inserting one run and its observations adds exactly that run to the log. */
  lemma InsertedRun(runs: map<int, RunRow>, observations: set<Observation>, id: int, rec: Record,
      known: map<string, SkillId>)
    requires ValidTables(runs, observations) && id !in runs
    requires forall s | s in rec.slugs :: s in known
    requires !exists i | i in runs :: runs[i].source == rec.source && runs[i].digest == rec.digest
    ensures var newRuns := runs[id := RunRow(rec.source, rec.digest, rec.observedAt)];
      var newObservations := observations + set s | s in Ids(rec.slugs, known) :: (id, s);
      && ValidTables(newRuns, newObservations)
      && LogOf(newRuns, newObservations) == LogOf(runs, observations) + {RunOf(rec, known)}
  {
    var ids := Ids(rec.slugs, known);
    var added := set s | s in ids :: (id, s);
    var newRuns, newObservations := runs[id := RunRow(rec.source, rec.digest, rec.observedAt)], observations + added;
    forall i | i in runs ensures RunAt(newRuns, newObservations, i) == RunAt(runs, observations, i) {
      assert (set o | o in newObservations && o.0 == i :: o.1) == (set o | o in observations && o.0 == i :: o.1);
    }
    assert RunAt(newRuns, newObservations, id) == RunOf(rec, known) by {
      assert forall s | s in ids :: (id, s) in newObservations && (id, s).0 == id && (id, s).1 == s;
      assert (set o | o in newObservations && o.0 == id :: o.1) == (set s | s in ids);
    }
    forall r ensures r in LogOf(newRuns, newObservations) <==> r in LogOf(runs, observations) + {RunOf(rec, known)} {
      if r in LogOf(runs, observations) {
        var i :| i in runs && RunAt(runs, observations, i) == r;
        assert i in newRuns && RunAt(newRuns, newObservations, i) == r;
      }
      if r == RunOf(rec, known) { assert id in newRuns; }
    }
  }

  method ImportOnView(v: View, id: int, skills: map<string, SkillId>, rec: Record, policy: Policy)
    returns (outcome: Outcome, staged: Option<View>)
    requires ValidTables(v.runs, v.observations) && forall i | i in v.runs :: i < id
    ensures staged.Some? ==>
      ValidTables(staged.value.runs, staged.value.observations) && staged.value.runs.Keys == v.runs.Keys + {id}
    ensures (LedgerOf(if staged.Some? then staged.value else v), outcome) == Import(LedgerOf(v), skills, rec, policy)
  {
    hide Import, PairTable, RebuiltPairs, EligibleEdges, LogOf, ActiveEdges, Overflows, SyncedEdges;
    hide Repeats, Missing, Known, RunOf, ValidTables, Ids, Symmetric;
    ghost var before := LedgerOf(v);
    staged := None;
    RefusedImports(before, skills, rec, policy);
    KnownMeans(v.runs, v.observations, rec.source, rec.digest);
    if exists i | i in v.runs :: v.runs[i].source == rec.source && v.runs[i].digest == rec.digest {
      return Duplicate, None;
    }
    var missing := Missing(rec.slugs, skills);
    if missing != [] {
      return UnknownSkills(missing), None;
    }
    NothingMissing(rec.slugs, skills);
    ResolvedImports(before, skills, rec, policy);
    var ids := Ids(rec.slugs, skills);
    if Repeats(ids) {
      return RepeatedSkill, None;
    }
    var runs := v.runs[id := RunRow(rec.source, rec.digest, rec.observedAt)];
    var observations := v.observations + set s | s in ids :: (id, s);
    InsertedRun(v.runs, v.observations, id, rec, skills);
    var pairs := RebuiltPairs(runs, observations, policy.windowDays);
    RebuildIsDeclared(runs, observations, policy.windowDays);
    if Overflows(pairs) {
      return NumericOverflow, None;
    }
    PairTableIsSymmetric(LogOf(runs, observations), policy.windowDays);
    var edges, activated, deactivated := SyncCoUsageGraphEdges(v.edges, pairs, policy);
    CommittedImport(before, skills, rec, policy, pairs, EligibleEdges(pairs, policy));
    staged := Some(View(runs, observations, pairs, edges));
    outcome := Imported(|rec.slugs|, |pairs|, activated, deactivated);
  }

  class Store {
    var skills: map<string, SkillId>
    var runs: map<int, RunRow>
    var observations: set<Observation>
    var nextRunId: int
    var pairs: map<Pair, PairRow>
    var edges: map<Pair, Edge>

    ghost predicate Valid()
      reads this
    {
      && ValidTables(runs, observations)
      && forall id | id in runs :: id < nextRunId
    }

    ghost function Contents(): Ledger
      reads this
    {
      Ledger(LogOf(runs, observations), pairs, edges)
    }

    constructor (skills: map<string, SkillId>)
      ensures Valid() && Contents() == EMPTY && this.skills == skills
    {
      this.skills := skills;
      runs, observations, nextRunId, pairs, edges := map[], {}, 1, map[], map[];
    }

    /** Everything is computed on the transaction's own view and becomes visible at the commit; a
        refused import rolls back. */
    method ImportObservationRun(rec: Record, policy: Policy) returns (outcome: Outcome)
      requires Valid()
      modifies this
      ensures Valid() && skills == old(skills)
      ensures (Contents(), outcome) == Import(old(Contents()), skills, rec, policy)
    {
      hide Import, LogOf, ValidTables;
      var view: Option<View>;
      outcome, view := ImportOnView(View(runs, observations, pairs, edges), nextRunId, skills, rec, policy);
      if view.Some? {
        runs, observations, pairs, edges := view.value.runs, view.value.observations, view.value.pairs,
          view.value.edges;
        nextRunId := nextRunId + 1;
      }
    }
  }
}
