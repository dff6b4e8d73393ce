/** Co-usage evidence said in observation runs alone: what is stored for a pair, which edges an import
    leaves active, how every import ends, and what a boost is. */
module CoUsageMeaning {
  import opened Collections
  import opened CoUsage
  import opened CoUsageLaws
  import Fusion

  // --- Counts of runs -----------------------------------------------------------------------------

  /** The runs that lie at most so many days before every other run. */
  ghost function Recent(log: set<Run>, days: nat): set<Run> {
    set r | r in log && forall q | q in log :: q.observedAt - r.observedAt <= days * 24 * 60 * 60 * 1_000_000
  }

  ghost function With(log: set<Run>, days: nat, skill: SkillId): set<Run> {
    set r | r in Recent(log, days) && skill in r.skills
  }

  ghost function Both(log: set<Run>, days: nat, a: SkillId, b: SkillId): set<Run> {
    With(log, days, a) * With(log, days, b)
  }

  /** q millionths is x / d to six decimals, half rounded up. */
  ghost predicate Nearest(q: int, x: int, d: int) {
    d > 0 && (2 * q - 1) * d <= 2_000_000 * x < (2 * q + 1) * d
  }

  ghost predicate IsRate(q: int, log: set<Run>, days: nat, anchor: SkillId, related: SkillId) {
    Nearest(q, |Both(log, days, anchor, related)|, |With(log, days, anchor)|)
  }

  ghost predicate IsLift(q: int, log: set<Run>, days: nat, a: SkillId, b: SkillId) {
    Nearest(q, |Both(log, days, a, b)| * |Recent(log, days)|, |With(log, days, a)| * |With(log, days, b)|)
  }

  lemma RoundIsNearest(x: nat, d: nat)
    requires d > 0
    ensures Nearest(Round6(x, d), x, d)
  {
    var q := Round6(x, d);
    assert q * (2 * d) <= 2 * UNIT * x + d < (q + 1) * (2 * d);
    assert (2 * q - 1) * d == q * (2 * d) - d && (2 * q + 1) * d == (q + 1) * (2 * d) - d;
  }

  lemma StrictCancel(a: int, b: int, d: int)
    requires d > 0 && a * d < b * d
    ensures a < b
  {
    assert a >= b ==> (a - b) * d >= 0;
  }

  lemma NearestIsUnique(p: int, q: int, x: int, d: int)
    requires Nearest(p, x, d) && Nearest(q, x, d)
    ensures p == q
  {
    StrictCancel(2 * p - 1, 2 * q + 1, d);
    StrictCancel(2 * q - 1, 2 * p + 1, d);
  }

  lemma WindowIsRecent(log: set<Run>, days: nat)
    requires log != {}
    ensures Window(log, days) == Recent(log, days) != {}
  {
    var newest :| newest in log && newest.observedAt == Latest(log);
    assert forall q | q in log :: q.observedAt in Instants(log);
    assert days * 24 * 60 * 60 * 1_000_000 == days * MICROS_PER_DAY;
    forall r | r in log ensures r in Window(log, days) <==> r in Recent(log, days) {
      assert r in Recent(log, days) ==> newest.observedAt - r.observedAt <= days * MICROS_PER_DAY;
    }
    assert newest in Window(log, days);
  }

  lemma CountsAreCounts(log: set<Run>, days: nat, p: Pair)
    requires log != {}
    ensures Using(Window(log, days), p.0) == With(log, days, p.0)
    ensures Using(Window(log, days), p.1) == With(log, days, p.1)
    ensures Together(Window(log, days), p) == Both(log, days, p.0, p.1)
  {
    WindowIsRecent(log, days);
  }

  // --- The pair table -----------------------------------------------------------------------------

  ghost predicate IsLastInstant(t: int, runs: set<Run>) {
    (exists r | r in runs :: r.observedAt == t) && forall r | r in runs :: r.observedAt <= t
  }

  lemma StoredRow(log: set<Run>, days: nat, p: Pair)
    requires log != {} && p in PairsIn(Window(log, days))
    ensures var row := RowFor(Window(log, days), p, days);
      && row.runCount == |Both(log, days, p.0, p.1)|
      && IsRate(row.rate, log, days, p.0, p.1) && IsLift(row.lift, log, days, p.0, p.1)
      && IsLastInstant(row.lastObservedAt, Both(log, days, p.0, p.1)) && row.windowDays == days
  {
    var window := Window(log, days);
    CountsAreCounts(log, days, p);
    WindowIsRecent(log, days);
    PairCounts(window, p);
    var c, n, a, b := |Together(window, p)|, |window|, |Using(window, p.0)|, |Using(window, p.1)|;
    assert a * b > 0;
    RoundIsNearest(c, a);
    RoundIsNearest(c * n, a * b);
    assert forall r | r in Together(window, p) :: r.observedAt in Instants(Together(window, p));
  }

  /** What is stored for an ordered pair: there is a row exactly when some recent run has both skills;
      it holds their number of common runs, the share of the anchor's runs, the lift, the newest common
      instant and the length of the window. */
  lemma StoredPair(log: set<Run>, days: nat, p: Pair)
    ensures var pairs := PairTable(log, days);
      && (p in pairs <==> p.0 != p.1 && Both(log, days, p.0, p.1) != {})
      && (p in pairs ==>
            && pairs[p].runCount == |Both(log, days, p.0, p.1)|
            && IsRate(pairs[p].rate, log, days, p.0, p.1) && IsLift(pairs[p].lift, log, days, p.0, p.1)
            && IsLastInstant(pairs[p].lastObservedAt, Both(log, days, p.0, p.1))
            && pairs[p].windowDays == days)
  {
    if log == {} {
      assert Both(log, days, p.0, p.1) == {};
    } else {
      CountsAreCounts(log, days, p);
      WindowIsRecent(log, days);
      PairsInMeaning(Window(log, days), p);
      if p in PairsIn(Window(log, days)) {
        StoredRow(log, days, p);
      }
    }
  }

  // --- Edges ----------------------------------------------------------------------------------------

  function Millionths(q: int): real {
    q as real / 1_000_000.0
  }

  /** An unordered pair is eligible exactly when both directions are stored with enough common runs, one
      of the two rates reaches the least rate, and the lift exceeds the least lift. */
  lemma EligibleIff(pairs: map<Pair, PairRow>, policy: Policy, e: Pair)
    requires Symmetric(pairs)
    ensures e in EligibleEdges(pairs, policy) <==>
      && e.0 < e.1 && e in pairs && (e.1, e.0) in pairs
      && pairs[e].runCount >= policy.minRuns
      && (Millionths(pairs[e].rate) >= policy.minRate || Millionths(pairs[(e.1, e.0)].rate) >= policy.minRate)
      && Millionths(pairs[e].lift) > policy.minLift
  {
    EligibleIffLargerDirectionPasses(pairs, policy, e);
    if e in pairs && (e.1, e.0) in pairs {
      var there, back := pairs[e], pairs[(e.1, e.0)];
      assert there.rate >= back.rate ==> Millionths(there.rate) >= Millionths(back.rate);
      assert back.rate >= there.rate ==> Millionths(back.rate) >= Millionths(there.rate);
    }
  }

  /** The thresholds of a policy, met by the recent runs of two skills. */
  ghost predicate MeetsThresholds(log: set<Run>, policy: Policy, a: SkillId, b: SkillId) {
    var days := policy.windowDays;
    && Both(log, days, a, b) != {} && |Both(log, days, a, b)| >= policy.minRuns
    && (exists q :: (IsRate(q, log, days, a, b) || IsRate(q, log, days, b, a)) && Millionths(q) >= policy.minRate)
    && (exists q :: IsLift(q, log, days, a, b) && Millionths(q) > policy.minLift)
  }

  lemma ThresholdsOfRow(log: set<Run>, policy: Policy, e: Pair, row: PairRow, backRate: int)
    requires var days := policy.windowDays;
      && row.runCount == |Both(log, days, e.0, e.1)| && Both(log, days, e.0, e.1) != {}
      && IsRate(row.rate, log, days, e.0, e.1) && IsRate(backRate, log, days, e.1, e.0)
      && IsLift(row.lift, log, days, e.0, e.1)
    ensures MeetsThresholds(log, policy, e.0, e.1) <==>
      && row.runCount >= policy.minRuns
      && (Millionths(row.rate) >= policy.minRate || Millionths(backRate) >= policy.minRate)
      && Millionths(row.lift) > policy.minLift
  {
    var days := policy.windowDays;
    forall q | IsRate(q, log, days, e.0, e.1) ensures q == row.rate {
      NearestIsUnique(q, row.rate, |Both(log, days, e.0, e.1)|, |With(log, days, e.0)|);
    }
    forall q | IsRate(q, log, days, e.1, e.0) ensures q == backRate {
      NearestIsUnique(q, backRate, |Both(log, days, e.1, e.0)|, |With(log, days, e.1)|);
    }
    forall q | IsLift(q, log, days, e.0, e.1) ensures q == row.lift {
      NearestIsUnique(q, row.lift, |Both(log, days, e.0, e.1)| * |Recent(log, days)|,
        |With(log, days, e.0)| * |With(log, days, e.1)|);
    }
    hide Both, With, Recent, IsRate, IsLift, Millionths;
  }

  lemma EligibleIffThresholds(log: set<Run>, policy: Policy, e: Pair)
    ensures e in EligibleEdges(PairTable(log, policy.windowDays), policy)
      <==> e.0 < e.1 && MeetsThresholds(log, policy, e.0, e.1)
  {
    var days, pairs, back := policy.windowDays, PairTable(log, policy.windowDays), (e.1, e.0);
    PairTableIsSymmetric(log, days);
    StoredPair(log, days, e);
    StoredPair(log, days, back);
    EligibleIff(pairs, policy, e);
    hide PairTable, EligibleEdges, Symmetric;
    assert Both(log, days, e.0, e.1) == Both(log, days, e.1, e.0);
    if e.0 < e.1 && e in pairs {
      ThresholdsOfRow(log, policy, e, pairs[e], pairs[back].rate);
    }
  }

  /** The run that a request describes. */
  ghost function Described(c: Command): Run {
    Run(c.rec.source, c.rec.digest, c.rec.observedAt, set slug | slug in c.rec.slugs && slug in c.known ::
      c.known[slug])
  }

  lemma DescribedIsRunOf(c: Command)
    requires Resolves(c)
    ensures RunOf(c.rec, c.known) == Described(c)
  {
    var ids := Ids(c.rec.slugs, c.known);
    forall id ensures id in ids <==> id in Described(c).skills {
      if id in ids {
        var i :| 0 <= i < |ids| && ids[i] == id;
        assert c.rec.slugs[i] in c.rec.slugs;
      }
      if id in Described(c).skills {
        var slug :| slug in c.rec.slugs && slug in c.known && c.known[slug] == id;
        var i :| 0 <= i < |c.rec.slugs| && c.rec.slugs[i] == slug;
        assert ids[i] == id;
      }
    }
  }

  ghost predicate IsActive(edges: map<Pair, Edge>, e: Pair) {
    e in edges && edges[e].active
  }

  /** After an accepted import the run is on record, and the active edges are exactly the pairs, smaller
      id first, whose recent runs meet the thresholds of the request's policy. */
  lemma ActiveAfterImportIff(l: Ledger, c: Command, e: Pair)
    requires Import(l, c.known, c.rec, c.policy).1.Imported?
    ensures var next := Import(l, c.known, c.rec, c.policy).0;
      && next.log == l.log + {Described(c)}
      && (IsActive(next.edges, e) <==> e.0 < e.1 && MeetsThresholds(next.log, c.policy, e.0, e.1))
  {
    hide PairTable, EligibleEdges, Overflows, LargerDirection, MeetsThresholds, Import, RunOf;
    AcceptedImport(l, c);
    DescribedIsRunOf(c);
    EligibleIffThresholds(l.log + {Described(c)}, c.policy, e);
  }

  /** The larger of two rates, both taken from the recent runs. */
  ghost predicate IsLargerRate(q: int, log: set<Run>, days: nat, e: Pair) {
    exists p, r :: IsRate(p, log, days, e.0, e.1) && IsRate(r, log, days, e.1, e.0) && q == Max(p, r)
  }

  lemma SymmetricCounts(log: set<Run>, days: nat, e: Pair)
    ensures Both(log, days, e.0, e.1) == Both(log, days, e.1, e.0)
    ensures forall q :: IsLift(q, log, days, e.0, e.1) <==> IsLift(q, log, days, e.1, e.0)
  {
    assert Both(log, days, e.0, e.1) == Both(log, days, e.1, e.0);
  }

  /** The figures of an unordered pair: those of the direction with the larger rate. */
  ghost predicate HasFigures(row: PairRow, log: set<Run>, days: nat, e: Pair) {
    && IsLargerRate(row.rate, log, days, e)
    && row.runCount == |Both(log, days, e.0, e.1)| && IsLift(row.lift, log, days, e.0, e.1)
    && IsLastInstant(row.lastObservedAt, Both(log, days, e.0, e.1)) && row.windowDays == days
  }

  lemma LargerDirectionHasFigures(log: set<Run>, days: nat, e: Pair)
    requires e in PairTable(log, days) && (e.1, e.0) in PairTable(log, days)
    ensures HasFigures(LargerDirection(PairTable(log, days), e), log, days, e)
    ensures LargerDirection(PairTable(log, days), e).rate <= UNIT
  {
    var pairs, back := PairTable(log, days), (e.1, e.0);
    StoredPair(log, days, e);
    StoredPair(log, days, back);
    SymmetricCounts(log, days, e);
    DerivedRatesInUnit(log, days);
    hide PairTable, Both, IsRate, IsLift, IsLastInstant;
    assert LargerDirection(pairs, e).rate == Max(pairs[e].rate, pairs[back].rate);
  }

  /** An edge that an import activates carries the present figures of its pair, and its confidence is the
      larger of the two rates. */
  lemma ActivatedEdge(l: Ledger, c: Command, e: Pair)
    requires Import(l, c.known, c.rec, c.policy).1.Imported? && !IsActive(l.edges, e)
    requires IsActive(Import(l, c.known, c.rec, c.policy).0.edges, e)
    ensures var next := Import(l, c.known, c.rec, c.policy).0;
      && HasFigures(next.edges[e].evidence, next.log, c.policy.windowDays, e)
      && next.edges[e].confidence == next.edges[e].evidence.rate
  {
    hide Import, PairTable, EligibleEdges, Overflows, LargerDirection, HasFigures, RunOf;
    AcceptedImport(l, c);
    var next := Import(l, c.known, c.rec, c.policy).0;
    assert e in ActiveEdges(next.edges) && e !in ActiveEdges(l.edges);
    LargerDirectionHasFigures(next.log, c.policy.windowDays, e);
  }

  // --- How an import ends -----------------------------------------------------------------------------

  /** The positions of the unknown slugs, in order. */
  ghost predicate UnknownAt(at: seq<nat>, missing: seq<string>, slugs: seq<string>, known: map<string, SkillId>) {
    && |at| == |missing|
    && (forall i | 0 <= i < |at| :: at[i] < |slugs| && missing[i] == slugs[at[i]] && slugs[at[i]] !in known)
    && (forall i, j | 0 <= i < j < |at| :: at[i] < at[j])
    && (forall k | 0 <= k < |slugs| && slugs[k] !in known :: k in at)
  }

  /** The unknown slugs of a request, in its order. */
  ghost predicate ListsUnknown(missing: seq<string>, slugs: seq<string>, known: map<string, SkillId>) {
    exists at :: UnknownAt(at, missing, slugs, known)
  }

  lemma OneMoreSlug(at: seq<nat>, missing: seq<string>, slugs: seq<string>, known: map<string, SkillId>, last: string)
    requires UnknownAt(at, missing, slugs, known)
    ensures last in known ==> UnknownAt(at, missing, slugs + [last], known)
    ensures last !in known ==> UnknownAt(at + [|slugs|], missing + [last], slugs + [last], known)
  {
    var longer := at + [|slugs|];
    forall k | 0 <= k < |slugs| && slugs[k] !in known ensures k in longer {
      assert k in at;
    }
    assert longer[|at|] == |slugs|;
  }

  lemma NothingIsUnknown(known: map<string, SkillId>)
    ensures UnknownAt([], Missing([], known), [], known)
  {
  }

  lemma {:induction false} MissingGrows(slugs: seq<string>, known: map<string, SkillId>, last: string)
    ensures Missing(slugs + [last], known) == if last in known
      then Missing(slugs, known) else Missing(slugs, known) + [last]
  {
    if slugs == [] {
      assert [last][1..] == [];
      assert Missing([last], known) == (if last in known then [] else [last]) + Missing([], known);
    } else {
      assert (slugs + [last])[1..] == slugs[1..] + [last];
      MissingGrows(slugs[1..], known, last);
    }
  }

  lemma {:induction false} MissingListsUnknown(slugs: seq<string>, known: map<string, SkillId>) returns (at: seq<nat>)
    ensures UnknownAt(at, Missing(slugs, known), slugs, known)
  {
    hide UnknownAt, Missing;
    at := [];
    NothingIsUnknown(known);
    if slugs != [] {
      var n := |slugs| - 1;
      at := MissingListsUnknown(slugs[..n], known);
      MissingGrows(slugs[..n], known, slugs[n]);
      OneMoreSlug(at, Missing(slugs[..n], known), slugs[..n], known, slugs[n]);
      assert slugs == slugs[..n] + [slugs[n]];
      if slugs[n] !in known {
        at := at + [n];
      }
    }
  }

  lemma MissingIsListed(slugs: seq<string>, known: map<string, SkillId>)
    ensures ListsUnknown(Missing(slugs, known), slugs, known)
  {
    var at := MissingListsUnknown(slugs, known);
  }

  lemma RepeatsIff(slugs: seq<string>, known: map<string, SkillId>)
    requires forall slug | slug in slugs :: slug in known
    ensures Repeats(Ids(slugs, known)) <==>
      exists i, j | 0 <= i < j < |slugs| && slugs[i] in known && slugs[j] in known :: known[slugs[i]] == known[slugs[j]]
  {
    var ids := Ids(slugs, known);
    if i, j :| 0 <= i < j < |ids| && ids[i] == ids[j] {
      assert slugs[i] in known && slugs[j] in known;
    }
    if i, j :| 0 <= i < j < |slugs| && slugs[i] in known && slugs[j] in known && known[slugs[i]] == known[slugs[j]] {
      assert ids[i] == ids[j];
    }
  }

  /** How an import ends, in the order of the checks: a known source and digest is a duplicate; unknown
      skills are listed; a skill named twice is refused; otherwise the import is accepted or fails on
      the column type. A refused import changes nothing. */
  lemma ImportEnds(l: Ledger, c: Command)
    ensures var (next, outcome) := Import(l, c.known, c.rec, c.policy);
      var duplicate := exists r | r in l.log :: r.source == c.rec.source && r.digest == c.rec.digest;
      var unknown := exists slug | slug in c.rec.slugs :: slug !in c.known;
      var repeated := exists i, j | 0 <= i < j < |c.rec.slugs| && c.rec.slugs[i] in c.known
        && c.rec.slugs[j] in c.known ::
        c.known[c.rec.slugs[i]] == c.known[c.rec.slugs[j]];
      && (outcome.Duplicate? <==> duplicate)
      && (outcome.UnknownSkills? <==> !duplicate && unknown)
      && (outcome.UnknownSkills? ==> ListsUnknown(outcome.slugs, c.rec.slugs, c.known))
      && (outcome.RepeatedSkill? <==> !duplicate && !unknown && repeated)
      && (outcome.Imported? ==> outcome.observations == |c.rec.slugs| && outcome.pairsRebuilt == |next.pairs|)
      && (!outcome.Imported? ==> next == l)
  {
    hide PairTable, Overflows, EligibleEdges, SyncedEdges, RunOf, ListsUnknown;
    NothingMissing(c.rec.slugs, c.known);
    MissingIsListed(c.rec.slugs, c.known);
    if forall slug | slug in c.rec.slugs :: slug in c.known {
      RepeatsIff(c.rec.slugs, c.known);
    }
  }

  // --- Boosts -----------------------------------------------------------------------------------------

  /** q is the share of the recent runs of context skill c that also have the candidate. */
  ghost predicate IsShare(log: set<Run>, days: nat, context: set<SkillId>, related: SkillId, c: SkillId, q: int) {
    c in context && c != related && Both(log, days, c, related) != {} && IsRate(q, log, days, c, related)
  }

  ghost predicate IsBestShare(log: set<Run>, days: nat, context: set<SkillId>, related: SkillId, c: SkillId, q: int) {
    IsShare(log, days, context, related, c, q) && forall d, p | IsShare(log, days, context, related, d, p) :: p <= q
  }

  lemma RateIsShare(log: set<Run>, days: nat, context: set<SkillId>, related: SkillId, q: int)
    requires q in Rates(PairTable(log, days), context, related)
    ensures exists c :: IsShare(log, days, context, related, c, q)
  {
    hide PairTable, IsRate;
    var pairs := PairTable(log, days);
    var p :| p in pairs && p.0 in context && p.1 == related && pairs[p].rate == q;
    StoredPair(log, days, p);
    assert IsShare(log, days, context, related, p.0, q);
  }

  lemma ShareIsRate(log: set<Run>, days: nat, context: set<SkillId>, related: SkillId, c: SkillId, q: int)
    requires IsShare(log, days, context, related, c, q)
    ensures q in Rates(PairTable(log, days), context, related)
  {
    hide PairTable;
    var pairs, p := PairTable(log, days), (c, related);
    StoredPair(log, days, p);
    NearestIsUnique(q, pairs[p].rate, |Both(log, days, c, related)|, |With(log, days, c)|);
    assert p in pairs && p.0 in context && p.1 == related && pairs[p].rate == q;
  }

  lemma RatesAreShares(log: set<Run>, days: nat, context: set<SkillId>, related: SkillId)
    ensures forall c, q | IsShare(log, days, context, related, c, q) ::
      q in Rates(PairTable(log, days), context, related)
    ensures forall q | q in Rates(PairTable(log, days), context, related) ::
      exists c :: IsShare(log, days, context, related, c, q)
  {
    forall q | q in Rates(PairTable(log, days), context, related)
      ensures exists c :: IsShare(log, days, context, related, c, q)
    {
      RateIsShare(log, days, context, related, q);
    }
    forall c, q | IsShare(log, days, context, related, c, q)
      ensures q in Rates(PairTable(log, days), context, related)
    {
      ShareIsRate(log, days, context, related, c, q);
    }
  }

  lemma MaxOfShares(log: set<Run>, days: nat, context: set<SkillId>, related: SkillId)
    requires Rates(PairTable(log, days), context, related) != {}
    ensures exists c ::
      IsBestShare(log, days, context, related, c, MaxOf(Rates(PairTable(log, days), context, related)))
  {
    hide PairTable, IsShare, Rates;
    var rates := Rates(PairTable(log, days), context, related);
    RatesAreShares(log, days, context, related);
    var c :| IsShare(log, days, context, related, c, MaxOf(rates));
    assert IsBestShare(log, days, context, related, c, MaxOf(rates));
  }

  lemma ScaledIsMillionths(q: int, cap: real)
    ensures Scaled(q, cap) == Millionths(q) * cap
  {
  }

  /** The boost of a candidate is the cap times the largest share of recent runs of a context skill that
      also have the candidate; without such runs there is none. */
  lemma BoostIsBestShare(s: State, context: set<SkillId>, related: SkillId, cap: real)
    requires Derived(s) && s.last.Some? && cap >= 0.0
    ensures var log, days := s.ledger.log, s.last.value.windowDays;
      var boost := CoUsageBoost(s.ledger.pairs, context, related, cap);
      && (boost.None? <==> forall c, q :: !IsShare(log, days, context, related, c, q))
      && (boost.Some? ==>
            exists c, q :: IsBestShare(log, days, context, related, c, q) && boost.value == Millionths(q) * cap)
  {
    hide PairTable, EligibleEdges, ActiveEdges, Overflows, IsShare, IsBestShare, Millionths, Rates;
    var log, days, pairs := s.ledger.log, s.last.value.windowDays, s.ledger.pairs;
    var rates := Rates(pairs, context, related);
    RatesAreShares(log, days, context, related);
    if rates != {} {
      BoostsNeedNoClamp(s, context, related, cap);
      MaxOfShares(log, days, context, related);
      ScaledIsMillionths(MaxOf(rates), cap);
    }
  }
}
