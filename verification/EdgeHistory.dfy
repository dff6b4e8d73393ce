/** Stored co-usage edges since revision 0013: imports keep them in step with the ledger, so their
    evidence is what the sync wrote or what the upgrade left. */
module EdgeHistory {
  import opened CanonicalJson
  import opened Catalogue
  import opened Collections
  import opened CoUsage
  import opened CoUsageLaws
  import CoUsageMeaning
  import opened Migration0013
  import VersionChecksum

  type EdgeTable = map<Id, EdgeRow>

  predicate FromCoUsage(table: EdgeTable, id: Id) {
    id in table && table[id].provenance == CoUsageDerived
  }

  function PairOf(e: EdgeRow): Pair
    requires e.target.Some?
  {
    (e.source, e.target.value)
  }

  // --- One import on the stored rows ------------------------------------------------------------

  /** The upsert of a pair that was not active. */
  ghost predicate FreshlyWritten(e: EdgeRow, row: PairRow, instant: int -> Json) {
    e.active && e.confidence == Some(FreshEdge(row).confidence) && e.evidence == SyncEvidence(row, instant)
  }

  /** What the two statements of the sync do to a stored co-usage row. */
  ghost predicate SyncsRow(before: EdgeRow, after: EdgeRow, pairs: map<Pair, PairRow>, policy: Policy,
      instant: int -> Json) {
    && before.target.Some? && after.target == before.target && after.source == before.source
    && var p := PairOf(before);
       if p !in EligibleEdges(pairs, policy) then after == before.(active := false)
       else if before.active then after == before
       else p in pairs && (p.1, p.0) in pairs && FreshlyWritten(after, LargerDirection(pairs, p), instant)
  }

  /** A row that the upsert inserts. */
  ghost predicate InsertsRow(before: EdgeTable, e: EdgeRow, pairs: map<Pair, PairRow>, policy: Policy,
      instant: int -> Json) {
    && e.target.Some? && PairOf(e) in EligibleEdges(pairs, policy)
    && (forall id | FromCoUsage(before, id) && before[id].target.Some? :: PairOf(before[id]) != PairOf(e))
    && var p := PairOf(e); p in pairs && (p.1, p.0) in pairs && FreshlyWritten(e, LargerDirection(pairs, p), instant)
  }

  ghost predicate Stores(table: EdgeTable, p: Pair) {
    exists id :: FromCoUsage(table, id) && table[id].target.Some? && PairOf(table[id]) == p
  }

  ghost predicate SyncsTable(before: EdgeTable, after: EdgeTable, pairs: map<Pair, PairRow>, policy: Policy,
      instant: int -> Json) {
    && (forall id | FromCoUsage(before, id) ::
          FromCoUsage(after, id) && SyncsRow(before[id], after[id], pairs, policy, instant))
    && (forall id | FromCoUsage(after, id) ::
          FromCoUsage(before, id) || InsertsRow(before, after[id], pairs, policy, instant))
    && (forall p | p in EligibleEdges(pairs, policy) :: Stores(after, p))
  }

  /** The same co-usage rows, whatever happens to authored ones. */
  ghost predicate SameCoUsageRows(before: EdgeTable, after: EdgeTable) {
    && (forall id :: FromCoUsage(before, id) <==> FromCoUsage(after, id))
    && (forall id | FromCoUsage(before, id) :: after[id] == before[id])
  }

  // --- Rows and ledger --------------------------------------------------------------------------

  /** The ledger knows the pairs of the stored rows, and which are active. */
  ghost predicate Mirrors(table: EdgeTable, edges: map<Pair, Edge>) {
    && (forall id | FromCoUsage(table, id) ::
          && table[id].target.Some? && PairOf(table[id]) in edges
          && table[id].active == edges[PairOf(table[id])].active)
    && (forall p | p in edges :: Stores(table, p))
  }

  /** The evidence of a row is what the sync wrote, or what it was to begin with. */
  ghost predicate Explained(first: EdgeTable, table: EdgeTable, edges: map<Pair, Edge>, id: Id, instant: int -> Json)
    requires FromCoUsage(table, id)
  {
    || WrittenBySync(table[id], edges, instant)
    || (FromCoUsage(first, id) && table[id].evidence == first[id].evidence)
  }

  ghost predicate AllExplained(first: EdgeTable, table: EdgeTable, edges: map<Pair, Edge>, instant: int -> Json) {
    forall id | FromCoUsage(table, id) :: Explained(first, table, edges, id, instant)
  }

  /** What an accepted import does to the edges of the ledger. */
  ghost predicate SyncsLedger(edges: map<Pair, Edge>, next: map<Pair, Edge>, pairs: map<Pair, PairRow>,
      policy: Policy) {
    var eligible := EligibleEdges(pairs, policy);
    && next.Keys == edges.Keys + eligible
    && (forall p | p in eligible :: p in pairs && (p.1, p.0) in pairs)
    && forall p | p in next ::
         next[p] == if p !in eligible then edges[p].(active := false)
                    else if p in edges && edges[p].active then edges[p]
                    else FreshEdge(LargerDirection(pairs, p))
  }

  lemma SyncedEdgesSync(edges: map<Pair, Edge>, pairs: map<Pair, PairRow>, policy: Policy)
    requires forall p | p in EligibleEdges(pairs, policy) :: p in pairs && (p.1, p.0) in pairs
    ensures SyncsLedger(edges, SyncedEdges(edges, pairs, policy), pairs, policy)
  {
    hide EligibleEdges, LargerDirection, FreshEdge;
  }

  lemma ImportSyncsLedger(l: Ledger, c: Command)
    requires Import(l, c.known, c.rec, c.policy).1.Imported?
    ensures var next := Import(l, c.known, c.rec, c.policy).0; SyncsLedger(l.edges, next.edges, next.pairs, c.policy)
  {
    hide PairTable, EligibleEdges, Overflows, SyncedEdges, SyncsLedger, RunOf, Repeats, Known;
    NothingMissing(c.rec.slugs, c.known);
    var log := l.log + {RunOf(c.rec, c.known)};
    EligibleHaveBothDirections(log, c.policy);
    SyncedEdgesSync(l.edges, PairTable(log, c.policy.windowDays), c.policy);
  }

  lemma SyncKeepsPairsStored(
    before: EdgeTable, after: EdgeTable, edges: map<Pair, Edge>, next: map<Pair, Edge>, pairs: map<Pair, PairRow>,
    policy: Policy, instant: int -> Json)
    requires Mirrors(before, edges) && SyncsTable(before, after, pairs, policy, instant)
      && SyncsLedger(edges, next, pairs, policy)
    ensures forall p | p in next :: Stores(after, p)
  {
    hide EligibleEdges, LargerDirection, SyncEvidence, FreshlyWritten, InsertsRow;
    forall p | p in next ensures Stores(after, p) {
      if p in edges {
        var id :| FromCoUsage(before, id) && before[id].target.Some? && PairOf(before[id]) == p;
        assert FromCoUsage(after, id) && PairOf(after[id]) == p;
      }
    }
  }

  lemma SyncKeepsMirror(
    before: EdgeTable, after: EdgeTable, edges: map<Pair, Edge>, next: map<Pair, Edge>, pairs: map<Pair, PairRow>,
    policy: Policy, instant: int -> Json)
    requires Mirrors(before, edges) && SyncsTable(before, after, pairs, policy, instant)
      && SyncsLedger(edges, next, pairs, policy)
    ensures Mirrors(after, next)
  {
    hide EligibleEdges, LargerDirection, SyncEvidence, Stores;
    SyncKeepsPairsStored(before, after, edges, next, pairs, policy, instant);
  }

  lemma FreshIsFresh(row: PairRow)
    ensures FreshEdge(row).active && FreshEdge(row).evidence == row
  {
  }

  function LargerDirectionOf(pairs: map<Pair, PairRow>, p: Pair): PairRow {
    if p in pairs && (p.1, p.0) in pairs then LargerDirection(pairs, p) else PairRow(0, 0, 0, 0, 0)
  }

  lemma SyncKeepsExplained(
    first: EdgeTable, before: EdgeTable, after: EdgeTable, edges: map<Pair, Edge>, next: map<Pair, Edge>,
    pairs: map<Pair, PairRow>,
    policy: Policy, instant: int -> Json)
    requires Mirrors(before, edges) && AllExplained(first, before, edges, instant)
    requires SyncsTable(before, after, pairs, policy, instant) && SyncsLedger(edges, next, pairs, policy)
    ensures AllExplained(first, after, next, instant)
  {
    hide EligibleEdges, LargerDirection, SyncEvidence;
    forall id | FromCoUsage(after, id) ensures Explained(first, after, next, id, instant) {
      var p := PairOf(after[id]);
      if FromCoUsage(before, id) {
        assert Explained(first, before, edges, id, instant);
        FreshIsFresh(LargerDirectionOf(pairs, p));
      } else {
        assert !Stores(before, p);
        assert p !in edges;
        FreshIsFresh(LargerDirectionOf(pairs, p));
      }
    }
  }

  /** An evidence object, key by key. */
  ghost predicate Tells(evidence: map<string, Json>, row: PairRow, instant: int -> Json) {
    && evidence.Keys == {"distinct_run_count", "co_usage_rate", "lift_score", "window_days", "last_observed_at"}
    && evidence["distinct_run_count"] == Number(VersionChecksum.Decimal(row.runCount))
    && evidence["co_usage_rate"] == Number(VersionChecksum.Decimal(row.rate))
    && evidence["lift_score"] == Number(VersionChecksum.Decimal(row.lift))
    && evidence["window_days"] == Number(VersionChecksum.Decimal(row.windowDays))
    && evidence["last_observed_at"] == instant(row.lastObservedAt)
  }

  /** Evidence and confidence with the figures a pair has in the log. */
  ghost predicate TellsFigures(evidence: map<string, Json>, confidence: Option<int>, log: set<Run>, days: nat, p: Pair,
      instant: int -> Json) {
    exists row | CoUsageMeaning.HasFigures(row, log, days, p) ::
      Tells(evidence, row, instant) && confidence == Some(row.rate)
  }

  lemma SyncEvidenceTells(row: PairRow, instant: int -> Json)
    ensures Tells(SyncEvidence(row, instant), row, instant)
  {
    hide VersionChecksum.Decimal;
    var evidence := SyncEvidence(row, instant);
    assert "distinct_run_count"[0] == 'd' && "co_usage_rate"[0] == 'c' && "lift_score"[1] == 'i';
    assert "window_days"[0] == 'w' && "last_observed_at"[1] == 'a' && "lift_score"[0] == "last_observed_at"[0] == 'l';
  }

  lemma FreshlyWrittenTells(e: EdgeRow, log: set<Run>, days: nat, p: Pair, instant: int -> Json)
    requires p in PairTable(log, days) && (p.1, p.0) in PairTable(log, days)
    requires FreshlyWritten(e, LargerDirection(PairTable(log, days), p), instant)
    ensures TellsFigures(e.evidence, e.confidence, log, days, p, instant)
  {
    var row := LargerDirection(PairTable(log, days), p);
    hide PairTable, LargerDirection, CoUsageMeaning.HasFigures, SyncEvidence, Tells;
    CoUsageMeaning.LargerDirectionHasFigures(log, days, p);
    SyncEvidenceTells(row, instant);
    assert FreshEdge(row).confidence == row.rate;
  }

  /** A stored row that an accepted import makes active tells the figures its pair has in the log by then. */
  lemma ActivatedRowTells(l: Ledger, c: Command, before: EdgeTable, after: EdgeTable, instant: int -> Json, id: Id)
    requires Import(l, c.known, c.rec, c.policy).1.Imported?
    requires SyncsTable(before, after, Import(l, c.known, c.rec, c.policy).0.pairs, c.policy, instant)
    requires FromCoUsage(after, id) && after[id].active && !(FromCoUsage(before, id) && before[id].active)
    ensures after[id].target.Some?
    ensures TellsFigures(after[id].evidence, after[id].confidence, Import(l, c.known, c.rec, c.policy).0.log,
      c.policy.windowDays, PairOf(after[id]), instant)
  {
    hide Import, PairTable, EligibleEdges, LargerDirection, FreshlyWritten, TellsFigures;
    AcceptedImport(l, c);
    EligibleHaveBothDirections(Import(l, c.known, c.rec, c.policy).0.log, c.policy);
    var log := Import(l, c.known, c.rec, c.policy).0.log;
    FreshlyWrittenTells(after[id], log, c.policy.windowDays, PairOf(after[id]), instant);
  }

  // --- Runs -------------------------------------------------------------------------------------

  ghost predicate EdgeStep(l: Ledger, next: Ledger, before: EdgeTable, after: EdgeTable, step: Option<Command>,
      instant: int -> Json) {
    match step
    case None => next == l && SameCoUsageRows(before, after)
    case Some(c) =>
      var r := Import(l, c.known, c.rec, c.policy);
      next == r.0 && if r.1.Imported? then SyncsTable(before, after, next.pairs, c.policy, instant) else after == before
  }

  /** From the tables an upgrade has left: imports, and in between anything that leaves the co-usage
      rows alone. */
  ghost predicate EdgeRun(l: Legacy, ledgers: seq<Ledger>, tables: seq<EdgeTable>, steps: seq<Option<Command>>,
      instant: int -> Json) {
    && |ledgers| == |tables| == |steps| + 1
    && tables[0] == StrippedEdges(l.edges) && Mirrors(tables[0], ledgers[0].edges)
    && forall i | 0 <= i < |steps| :: EdgeStep(ledgers[i], ledgers[i + 1], tables[i], tables[i + 1], steps[i], instant)
  }

  lemma SameRowsStayExplained(first: EdgeTable, before: EdgeTable, after: EdgeTable, edges: map<Pair, Edge>,
      instant: int -> Json)
    requires Mirrors(before, edges) && AllExplained(first, before, edges, instant) && SameCoUsageRows(before, after)
    ensures Mirrors(after, edges) && AllExplained(first, after, edges, instant)
  {
    hide WrittenBySync;
    forall p | p in edges ensures Stores(after, p) {
      var id :| FromCoUsage(before, id) && before[id].target.Some? && PairOf(before[id]) == p;
      assert FromCoUsage(after, id) && after[id] == before[id];
    }
    forall id | FromCoUsage(after, id) ensures Explained(first, after, edges, id, instant) {
      assert Explained(first, before, edges, id, instant);
    }
  }

  lemma EdgeStepKeepsExplained(
    first: EdgeTable, l: Ledger, next: Ledger, before: EdgeTable, after: EdgeTable, step: Option<Command>,
    instant: int -> Json)
    requires Mirrors(before, l.edges) && AllExplained(first, before, l.edges, instant)
    requires EdgeStep(l, next, before, after, step, instant)
    ensures Mirrors(after, next.edges) && AllExplained(first, after, next.edges, instant)
  {
    hide Import, Mirrors, AllExplained, SyncsTable, SyncsLedger, SameCoUsageRows;
    match step
    case None =>
      SameRowsStayExplained(first, before, after, l.edges, instant);
    case Some(c) =>
      if Import(l, c.known, c.rec, c.policy).1.Imported? {
        ImportSyncsLedger(l, c);
        SyncKeepsMirror(before, after, l.edges, next.edges, next.pairs, c.policy, instant);
        SyncKeepsExplained(first, before, after, l.edges, next.edges, next.pairs, c.policy, instant);
      }
  }

  /** At any moment after an upgrade each co-usage row is active as in the ledger, and its evidence is
      the one the sync wrote for the ledger's edge or still the one the upgrade left. */
  lemma {:induction false} EvidenceIsExplained(
    l: Legacy, ledgers: seq<Ledger>, tables: seq<EdgeTable>, steps: seq<Option<Command>>, instant: int -> Json, n: nat)
    requires EdgeRun(l, ledgers, tables, steps, instant) && n < |tables|
    ensures Mirrors(tables[n], ledgers[n].edges) && AllExplained(tables[0], tables[n], ledgers[n].edges, instant)
  {
    if n == 0 {
      hide Mirrors;
    } else {
      EvidenceIsExplained(l, ledgers, tables, steps, instant, n - 1);
      hide Mirrors, AllExplained, EdgeStep;
      EdgeStepKeepsExplained(tables[0], ledgers[n - 1], ledgers[n], tables[n - 1], tables[n], steps[n - 1], instant);
    }
  }

  /** So the edges of every such moment survive a downgrade and another upgrade unchanged. */
  lemma EdgesOfEveryRunRoundTrip(
    l: Legacy, ledgers: seq<Ledger>, tables: seq<EdgeTable>, steps: seq<Option<Command>>, instant: int -> Json, n: nat,
    c: Canonical, num: Numeric)
    requires EveryVersionJoins(l) && EdgeRun(l, ledgers, tables, steps, instant) && n < |tables|
    requires CanonicalSchema(c) && c.edges == tables[n]
    ensures EveryVersionJoins(Downgraded(c, num)) && Upgraded(Downgraded(c, num)) == c
  {
    EvidenceIsExplained(l, ledgers, tables, steps, instant, n);
    assert Upgraded(l).edges == tables[0];
    hide CanonicalSchema, Upgraded, Downgraded, EveryVersionJoins, WrittenBySync, EdgeRun, Mirrors;
    forall id | id in c.edges && c.edges[id].provenance == CoUsageDerived
      ensures WrittenBySync(c.edges[id], ledgers[n].edges, instant)
        || (FromCoUsage(tables[0], id) && c.edges[id].evidence == tables[0][id].evidence)
    {
      assert FromCoUsage(tables[n], id) && Explained(tables[0], tables[n], ledgers[n].edges, id, instant);
    }
    SyncedEdgesRoundTrip(c, num, l, ledgers[n].edges, instant);
  }
}
