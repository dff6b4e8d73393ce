/** Co-usage evidence: what the pair table and the graph edges have to be, said as functions of
    the set of accepted observation runs and the policy of the last accepted import. */
module CoUsage {
  import opened Collections

  type SkillId = int
  type Pair = (SkillId, SkillId)

  /** Instants are in microseconds. */
  const MICROS_PER_DAY: int := 86_400_000_000

  /** Rates and lifts are NUMERIC(10, 6): integers in units of a millionth, below ten thousand. */
  const UNIT: nat := 1_000_000
  const NUMERIC_LIMIT: nat := 10_000 * UNIT

  datatype Run = Run(source: string, digest: string, observedAt: int, skills: set<SkillId>)

  datatype PairRow = PairRow(runCount: int, rate: int, lift: int, lastObservedAt: int, windowDays: int)

  datatype Policy = Policy(minRuns: nat, minRate: real, minLift: real, windowDays: nat)

  datatype Edge = Edge(active: bool, confidence: int, evidence: PairRow)

  /** `ROUND(numerator / denominator, 6)` of a non-negative quotient, half away from zero. */
  function Round6(numerator: nat, denominator: nat): nat
    requires denominator > 0
  {
    (2 * UNIT * numerator + denominator) / (2 * denominator)
  }

  // --- The pair table as a function of the log ---------------------------------------------------

  ghost function AnyOf<T>(s: set<T>): (x: T)
    requires s != {}
    ensures x in s
  {
    var x :| x in s; x
  }

  function Instants(runs: set<Run>): (t: set<int>)
    ensures runs != {} ==> t != {}
  {
    var t := set r | r in runs :: r.observedAt;
    assert runs != {} ==> AnyOf(runs).observedAt in t;
    t
  }

  function Latest(log: set<Run>): int
    requires log != {}
  {
    MaxOf(Instants(log))
  }

  /** The runs of the last `days` days before the newest run. */
  function Window(log: set<Run>, days: nat): set<Run>
    requires log != {}
  {
    set r | r in log && r.observedAt >= Latest(log) - days * MICROS_PER_DAY
  }

  function Using(window: set<Run>, skill: SkillId): set<Run> {
    set r | r in window && skill in r.skills
  }

  function Together(window: set<Run>, p: Pair): set<Run> {
    set r | r in window && p.0 in r.skills && p.1 in r.skills
  }

  function PairsIn(window: set<Run>): set<Pair> {
    set r, a, b | r in window && a in r.skills && b in r.skills && a != b :: (a, b)
  }

  lemma PairsInMeaning(window: set<Run>, p: Pair)
    ensures p in PairsIn(window) <==> p.0 != p.1 && Together(window, p) != {}
    ensures Together(window, p) <= Using(window, p.0) && Together(window, p) <= Using(window, p.1)
    ensures Using(window, p.0) <= window && Using(window, p.1) <= window
  {
    if p.0 != p.1 && Together(window, p) != {} {
      var r := AnyOf(Together(window, p));
      assert (p.0, p.1) == p;
    }
    if p in PairsIn(window) {
      var r, a, b :| r in window && a in r.skills && b in r.skills && a != b && p == (a, b);
      assert r in Together(window, p);
    }
  }

  lemma PairCounts(window: set<Run>, p: Pair)
    requires p in PairsIn(window)
    ensures 0 < |Together(window, p)| <= |Using(window, p.0)| <= |window|
    ensures |Together(window, p)| <= |Using(window, p.1)| <= |window|
  {
    PairsInMeaning(window, p);
    SubsetSize(Together(window, p), Using(window, p.0));
    SubsetSize(Together(window, p), Using(window, p.1));
    SubsetSize(Using(window, p.0), window);
    SubsetSize(Using(window, p.1), window);
  }

  function RowFor(window: set<Run>, p: Pair, days: nat): PairRow
    requires p in PairsIn(window)
  {
    PairCounts(window, p);
    var together := Together(window, p);
    assert |Using(window, p.0)| * |Using(window, p.1)| > 0;
    PairRow(
      |together|,
      Round6(|together|, |Using(window, p.0)|),
      Round6(|together| * |window|, |Using(window, p.0)| * |Using(window, p.1)|),
      MaxOf(Instants(together)),
      days)
  }

  function PairTable(log: set<Run>, days: nat): map<Pair, PairRow> {
    if log == {} then map[]
    else
      var window := Window(log, days);
      map p | p in PairsIn(window) :: RowFor(window, p, days)
  }

  // --- Arithmetic of the scores --------------------------------------------------------------------

  lemma RoundBound(x: nat, d: nat)
    requires d > 0
    ensures (2 * Round6(x, d) - 1) * d <= 2 * UNIT * x
  {
    var q := Round6(x, d);
    assert q * (2 * d) <= 2 * UNIT * x + d;
    assert (2 * q - 1) * d == q * (2 * d) - d;
  }

  lemma MulMonotone(a: int, b: int, c: nat)
    requires a <= b
    ensures a * c <= b * c
  {
  }

  lemma CancelFactor(a: int, b: int, d: nat)
    requires d > 0 && a * d <= b * d
    ensures a <= b
  {
    assert a > b ==> (a - b) * d > 0;
  }

  lemma QuotientAtLeast(n: nat, d: nat, q: int)
    requires d > 0 && q * d <= n
    ensures q <= n / d
  {
    if q > n / d {
      assert n < (n / d + 1) * d;
      MulMonotone(n / d + 1, q, d);
    }
  }

  lemma RoundIsMonotone(x: nat, d: nat, y: nat, e: nat)
    requires d > 0 && e > 0 && x * e <= y * d
    ensures Round6(x, d) <= Round6(y, e)
  {
    var q, a, b := Round6(x, d), 2 * UNIT * x, 2 * UNIT * y;
    RoundBound(x, d);
    MulMonotone((2 * q - 1) * d, a, e);
    assert a * e == 2 * UNIT * (x * e) && b * d == 2 * UNIT * (y * d);
    assert (2 * q - 1) * d * e == (2 * q - 1) * e * d;
    CancelFactor((2 * q - 1) * e, b, d);
    assert q * (2 * e) == (2 * q - 1) * e + e;
    QuotientAtLeast(b + e, 2 * e, q);
  }

  lemma QuotientIs(k: nat, d: nat, r: nat)
    requires r < d
    ensures (k * d + r) / d == k
  {
    QuotientAtLeast(k * d + r, d, k);
    var q := (k * d + r) / d;
    if q > k {
      MulMonotone(k + 1, q, d);
    }
  }

  lemma RoundOfWhole(n: nat, d: nat)
    requires d > 0
    ensures Round6(n * d, d) == n * UNIT
  {
    assert 2 * UNIT * (n * d) == (n * UNIT) * (2 * d);
    QuotientIs(n * UNIT, 2 * d, d);
  }

  lemma LiftAtLeastRate(c: nat, n: nat, a: nat, b: nat)
    requires b <= n && a > 0 && b > 0
    ensures a * b > 0 && c * (a * b) <= c * n * a
  {
    MulMonotone(b, n, c * a);
    assert b * (c * a) == c * (a * b);
    assert n * (c * a) == c * n * a;
  }

  lemma LiftAtMost(c: nat, n: nat, a: nat, b: nat)
    requires c <= a && c <= b
    ensures (c * n) * Max(a, b) <= n * (a * b)
  {
    if a <= b {
      MulMonotone(c, a, n * b);
      assert c * (n * b) == (c * n) * b;
      assert a * (n * b) == n * (a * b);
    } else {
      MulMonotone(c, b, n * a);
      assert c * (n * a) == (c * n) * a;
      assert b * (n * a) == n * (a * b);
    }
  }

  lemma LiftBounds(c: nat, n: nat, a: nat, b: nat)
    requires 0 < c <= a <= n && c <= b <= n
    ensures a * b > 0
    ensures Round6(c, a) <= Round6(c * n, a * b)
    ensures Round6(c * n, a * b) <= Round6(n, Max(a, b))
  {
    LiftAtLeastRate(c, n, a, b);
    RoundIsMonotone(c, a, c * n, a * b);
    LiftAtMost(c, n, a, b);
    RoundIsMonotone(c * n, a * b, n, Max(a, b));
  }

  /** Scores of one pair: the count and the lift are symmetric, a rate lies in [0, 1], the lift is
      at least either rate and at most N / max(n_a, n_b), all after rounding. */
  lemma ScoresOfAPair(window: set<Run>, p: Pair, days: nat)
    requires p in PairsIn(window)
    ensures (p.1, p.0) in PairsIn(window)
    ensures |Using(window, p.0)| > 0 && |Using(window, p.1)| > 0
    ensures var row, back := RowFor(window, p, days), RowFor(window, (p.1, p.0), days);
      && row.runCount == back.runCount && row.lift == back.lift
      && row.lastObservedAt == back.lastObservedAt
      && 0 < row.runCount <= |window|
      && 0 <= row.rate <= UNIT
      && row.rate <= row.lift && back.rate <= row.lift
      && row.lift <= Round6(|window|, Max(|Using(window, p.0)|, |Using(window, p.1)|))
  {
    var q := (p.1, p.0);
    PairsInMeaning(window, p);
    PairsInMeaning(window, q);
    assert Together(window, p) == Together(window, q);
    PairCounts(window, p);
    var c, n, a, b := |Together(window, p)|, |window|, |Using(window, p.0)|, |Using(window, p.1)|;
    LiftBounds(c, n, a, b);
    LiftBounds(c, n, b, a);
    assert a * b == b * a;
    RoundIsMonotone(c, a, 1, 1);
    RoundOfWhole(1, 1);
  }

  // --- NUMERIC(10, 6) -------------------------------------------------------------------------------

  /** Storing the table would raise "numeric field overflow". */
  predicate Overflows(pairs: map<Pair, PairRow>) {
    exists p | p in pairs :: pairs[p].rate >= NUMERIC_LIMIT || pairs[p].lift >= NUMERIC_LIMIT
  }

  /** The unrounded lift c N / (n_a n_b) of the pair is at least 9999.9999995. */
  predicate LiftOverflows(window: set<Run>, p: Pair) {
    var together, a, b := |Together(window, p)|, |Using(window, p.0)|, |Using(window, p.1)|;
    2 * UNIT * (together * |window|) + a * b >= 2 * NUMERIC_LIMIT * (a * b)
  }

  lemma RoundReaches(n: nat, d: nat, limit: nat)
    requires d > 0
    ensures Round6(n, d) >= limit <==> 2 * UNIT * n + d >= limit * (2 * d)
  {
    var q := Round6(n, d);
    if q >= limit {
      MulMonotone(limit, q, 2 * d);
    } else {
      MulMonotone(q + 1, limit, 2 * d);
    }
  }

  lemma LiftOverflowsIff(window: set<Run>, p: Pair, days: nat)
    requires p in PairsIn(window)
    ensures RowFor(window, p, days).lift >= NUMERIC_LIMIT <==> LiftOverflows(window, p)
    ensures RowFor(window, p, days).rate < NUMERIC_LIMIT
  {
    PairCounts(window, p);
    ScoresOfAPair(window, p, days);
    var a, b := |Using(window, p.0)|, |Using(window, p.1)|;
    RoundReaches(|Together(window, p)| * |window|, a * b, NUMERIC_LIMIT);
  }

  /** Exactly when the pair table cannot be stored: some pair of the window has a lift that rounds
      to ten thousand or more. Rates never do. */
  lemma OverflowsIff(log: set<Run>, days: nat)
    requires log != {}
    ensures Overflows(PairTable(log, days))
      <==> exists p | p in PairsIn(Window(log, days)) :: LiftOverflows(Window(log, days), p)
  {
    hide RowFor, LiftOverflows, Window;
    var window, table := Window(log, days), PairTable(log, days);
    forall p | p in PairsIn(window)
      ensures p in table
        && (table[p].rate >= NUMERIC_LIMIT || table[p].lift >= NUMERIC_LIMIT <==> LiftOverflows(window, p))
    {
      LiftOverflowsIff(window, p, days);
    }
    if p :| p in PairsIn(window) && LiftOverflows(window, p) {
      assert table[p].lift >= NUMERIC_LIMIT || table[p].rate >= NUMERIC_LIMIT;
    }
  }

  lemma QuotientOfSmall(n: nat, m: nat)
    requires n < 10_000 && m > 0
    ensures Round6(n, m) < NUMERIC_LIMIT
  {
    MulMonotone(1, m, n);
    RoundIsMonotone(n, m, n, 1);
    RoundOfWhole(n, 1);
  }

  /** A window of fewer than ten thousand runs always fits. */
  lemma SmallWindowsFit(log: set<Run>, days: nat)
    requires log != {} && |Window(log, days)| < 10_000
    ensures !Overflows(PairTable(log, days))
  {
    var window := Window(log, days);
    OverflowsIff(log, days);
    forall p | p in PairsIn(window) ensures !LiftOverflows(window, p) {
      LiftOverflowsIff(window, p, days);
      ScoresOfAPair(window, p, days);
      QuotientOfSmall(|window|, Max(|Using(window, p.0)|, |Using(window, p.1)|));
    }
  }

  lemma Cancel(c: nat, x: int, y: int)
    requires c > 0
    ensures c * x >= c * y <==> x >= y
  {
    if x >= y {
      MulMonotone(y, x, c);
    } else {
      MulMonotone(x + 1, y, c);
    }
  }

  /** Two skills that only ever occur together, in c runs of the window, overflow exactly when the
      window has ten thousand times as many runs, up to rounding. */
  lemma InseparablePairOverflowsIff(window: set<Run>, p: Pair)
    requires p in PairsIn(window)
    requires |Using(window, p.0)| == |Together(window, p)| == |Using(window, p.1)|
    ensures LiftOverflows(window, p)
      <==> 2 * UNIT * |window| + |Together(window, p)| >= 2 * NUMERIC_LIMIT * |Together(window, p)|
  {
    PairCounts(window, p);
    var c, n := |Together(window, p)|, |window|;
    Cancel(c, 2 * UNIT * n + c, 2 * NUMERIC_LIMIT * c);
    assert c * (2 * UNIT * n + c) == 2 * UNIT * (c * n) + c * c;
    assert c * (2 * NUMERIC_LIMIT * c) == 2 * NUMERIC_LIMIT * (c * c);
  }

  // --- Eligible edges --------------------------------------------------------------------------------

  predicate Passes(row: PairRow, policy: Policy) {
    && row.runCount >= policy.minRuns
    && row.rate as real / UNIT as real >= policy.minRate
    && row.lift as real / UNIT as real > policy.minLift
  }

  function Undirected(p: Pair): Pair {
    if p.0 <= p.1 then p else (p.1, p.0)
  }

  /** Unordered pairs with at least one direction that passes the thresholds. */
  function EligibleEdges(pairs: map<Pair, PairRow>, policy: Policy): set<Pair> {
    set p | p in pairs && Passes(pairs[p], policy) :: Undirected(p)
  }

  ghost predicate Symmetric(pairs: map<Pair, PairRow>) {
    forall p | p in pairs ::
      && p.0 != p.1 && (p.1, p.0) in pairs
      && pairs[(p.1, p.0)] == pairs[p].(rate := pairs[(p.1, p.0)].rate)
  }

  lemma PairTableIsSymmetric(log: set<Run>, days: nat)
    ensures Symmetric(PairTable(log, days))
  {
    if log != {} {
      var window := Window(log, days);
      forall p | p in PairsIn(window)
        ensures p.0 != p.1 && (p.1, p.0) in PairsIn(window)
        ensures RowFor(window, (p.1, p.0), days)
          == RowFor(window, p, days).(rate := RowFor(window, (p.1, p.0), days).rate)
      {
        PairsInMeaning(window, p);
        ScoresOfAPair(window, p, days);
      }
    }
  }

  /** Evidence of an edge: the row of its larger-rate direction. */
  function LargerDirection(pairs: map<Pair, PairRow>, e: Pair): PairRow
    requires e in pairs && (e.1, e.0) in pairs
  {
    if pairs[e].rate >= pairs[(e.1, e.0)].rate then pairs[e] else pairs[(e.1, e.0)]
  }

  /** An unordered pair is eligible exactly when its larger-rate direction passes. */
  lemma EligibleIffLargerDirectionPasses(pairs: map<Pair, PairRow>, policy: Policy, e: Pair)
    requires Symmetric(pairs)
    ensures e in EligibleEdges(pairs, policy) <==>
      e.0 < e.1 && e in pairs && (e.1, e.0) in pairs && Passes(LargerDirection(pairs, e), policy)
  {
    if e in EligibleEdges(pairs, policy) {
      var p :| p in pairs && Passes(pairs[p], policy) && Undirected(p) == e;
      assert p == e || p == (e.1, e.0);
      assert (p.1, p.0) in pairs && ((p.1, p.0) == e || (p.1, p.0) == (e.1, e.0));
      var big, small := LargerDirection(pairs, e), pairs[p];
      assert big.rate as real / UNIT as real >= small.rate as real / UNIT as real;
    }
    if e.0 < e.1 && e in pairs && (e.1, e.0) in pairs && Passes(LargerDirection(pairs, e), policy) {
      assert Undirected(e) == e && Undirected((e.1, e.0)) == e;
    }
  }

  // --- One import --------------------------------------------------------------------------------------

  datatype Record = Record(source: string, digest: string, observedAt: int, slugs: seq<string>)

  /** What the import endpoint lets through: a trimmed source of at most 100 characters, a digest of
      64 hexadecimal digits and 1 to 100 distinct slugs. */
  ghost predicate PassesTheApi(rec: Record) {
    && 1 <= |rec.source| <= 100 && rec.source[0] != ' ' && rec.source[|rec.source| - 1] != ' '
    && |rec.digest| == 64 && (forall i | 0 <= i < 64 :: '0' <= rec.digest[i] <= '9' || 'a' <= rec.digest[i] <= 'f')
    && 1 <= |rec.slugs| <= 100 && forall i, j | 0 <= i < j < |rec.slugs| :: rec.slugs[i] != rec.slugs[j]
  }

  datatype Outcome =
    | Duplicate
    | UnknownSkills(slugs: seq<string>)
    | RepeatedSkill
    | NumericOverflow
    | Imported(observations: nat, pairsRebuilt: nat, activated: nat, deactivated: nat)

  datatype Ledger = Ledger(log: set<Run>, pairs: map<Pair, PairRow>, edges: map<Pair, Edge>)

  const EMPTY: Ledger := Ledger({}, map[], map[])

  function ActiveEdges(edges: map<Pair, Edge>): set<Pair> {
    set e | e in edges && edges[e].active
  }

  function Missing(slugs: seq<string>, known: map<string, SkillId>): seq<string> {
    if slugs == [] then []
    else (if slugs[0] in known then [] else [slugs[0]]) + Missing(slugs[1..], known)
  }

  lemma {:induction false} NothingMissing(slugs: seq<string>, known: map<string, SkillId>)
    ensures Missing(slugs, known) == [] <==> forall s | s in slugs :: s in known
  {
    if slugs != [] {
      NothingMissing(slugs[1..], known);
      assert slugs == [slugs[0]] + slugs[1..];
    }
  }

  function Ids(slugs: seq<string>, known: map<string, SkillId>): seq<SkillId>
    requires forall s | s in slugs :: s in known
  {
    seq(|slugs|, i requires 0 <= i < |slugs| => known[slugs[i]])
  }

  predicate Repeats(ids: seq<SkillId>) {
    exists i, j | 0 <= i < j < |ids| :: ids[i] == ids[j]
  }

  function RunOf(rec: Record, known: map<string, SkillId>): Run
    requires forall s | s in rec.slugs :: s in known
  {
    Run(rec.source, rec.digest, rec.observedAt, set id | id in Ids(rec.slugs, known))
  }

  predicate Known(log: set<Run>, source: string, digest: string) {
    exists r | r in log :: r.source == source && r.digest == digest
  }

  function FreshEdge(row: PairRow): Edge {
    Edge(true, if row.rate <= UNIT then row.rate else UNIT, row)
  }

  /** Edges after a sync: eligible pairs are active, the others are not; an edge that was already
      active keeps its confidence and evidence. */
  function SyncedEdges(edges: map<Pair, Edge>, pairs: map<Pair, PairRow>, policy: Policy): map<Pair, Edge>
    requires forall e | e in EligibleEdges(pairs, policy) :: e in pairs && (e.1, e.0) in pairs
  {
    var eligible := EligibleEdges(pairs, policy);
    map e | e in edges.Keys + eligible ::
      if e !in eligible then edges[e].(active := false)
      else if e in edges && edges[e].active then edges[e]
      else FreshEdge(LargerDirection(pairs, e))
  }

  lemma EligibleHaveBothDirections(log: set<Run>, policy: Policy)
    ensures var pairs := PairTable(log, policy.windowDays);
      forall e | e in EligibleEdges(pairs, policy) :: e in pairs && (e.1, e.0) in pairs && e.0 < e.1
  {
    var pairs := PairTable(log, policy.windowDays);
    PairTableIsSymmetric(log, policy.windowDays);
    forall e | e in EligibleEdges(pairs, policy) ensures e in pairs && (e.1, e.0) in pairs && e.0 < e.1 {
      EligibleIffLargerDirectionPasses(pairs, policy, e);
    }
  }

  /** What one import does to the ledger. A refused import leaves it as it was. */
  function Import(l: Ledger, known: map<string, SkillId>, rec: Record, policy: Policy): (result: (Ledger, Outcome))
    ensures !result.1.Imported? ==> result.0 == l
  {
    if Known(l.log, rec.source, rec.digest) then (l, Duplicate)
    else if Missing(rec.slugs, known) != [] then (l, UnknownSkills(Missing(rec.slugs, known)))
    else
      NothingMissing(rec.slugs, known);
      if Repeats(Ids(rec.slugs, known)) then (l, RepeatedSkill)
      else
        var log := l.log + {RunOf(rec, known)};
        var pairs := PairTable(log, policy.windowDays);
        if Overflows(pairs) then (l, NumericOverflow)
        else
          EligibleHaveBothDirections(log, policy);
          var eligible, before := EligibleEdges(pairs, policy), ActiveEdges(l.edges);
          (Ledger(log, pairs, SyncedEdges(l.edges, pairs, policy)),
           Imported(|rec.slugs|, |pairs|, |eligible - before|, |before - eligible|))
  }

  /** An import fails on the column type exactly when it is no duplicate, names known and distinct
      skills, and completes a window in which some pair's lift rounds to ten thousand or more. */
  lemma ImportOverflowsIff(l: Ledger, known: map<string, SkillId>, rec: Record, policy: Policy)
    ensures Import(l, known, rec, policy).1 == NumericOverflow <==>
      && !Known(l.log, rec.source, rec.digest)
      && (forall s | s in rec.slugs :: s in known)
      && !Repeats(Ids(rec.slugs, known))
      && (var window := Window(l.log + {RunOf(rec, known)}, policy.windowDays);
          exists p | p in PairsIn(window) :: LiftOverflows(window, p))
  {
    hide LiftOverflows, PairTable, Overflows, Window, PairsIn, EligibleEdges, SyncedEdges, Repeats, RunOf;
    NothingMissing(rec.slugs, known);
    if forall s | s in rec.slugs :: s in known {
      OverflowsIff(l.log + {RunOf(rec, known)}, policy.windowDays);
    }
  }
}
