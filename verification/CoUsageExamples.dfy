/** Import histories at the edges of the co-usage laws, made of records the import endpoint accepts:
    one that the column types cannot hold, and one that leaves evidence stale. */
module CoUsageExamples {
  import opened Collections
  import opened CoUsage
  import opened CoUsageLaws
  import VersionChecksum

  // --- An import the column types cannot hold ---------------------------------------------------------

  const KNOWN: map<string, SkillId> := map["left" := 1, "right" := 2, "solo" := 3]

  function Repeated(c: char, n: nat): (r: string)
    ensures |r| == n && forall i | 0 <= i < n :: r[i] == c
  {
    if n == 0 then [] else [c] + Repeated(c, n - 1)
  }

  /** A digest the endpoint accepts. */
  function SomeDigest(): (d: string)
    ensures |d| == 64 && forall i | 0 <= i < 64 :: d[i] == 'a'
  {
    Repeated('a', 64)
  }

  /** The n-th import of the lone skill. */
  function LoneImport(n: nat, policy: Policy): Command {
    Command(KNOWN, Record(VersionChecksum.Digits(n), SomeDigest(), 0, ["solo"]), policy)
  }

  function LoneImports(n: nat, policy: Policy): seq<Command> {
    if n == 0 then [] else LoneImports(n - 1, policy) + [LoneImport(n, policy)]
  }

  ghost predicate LoneLog(log: set<Run>, n: nat) {
    && |log| == n
    && forall r | r in log ::
         && r.digest == SomeDigest() && r.observedAt == 0 && r.skills == {3}
         && VersionChecksum.ValueOf(r.source) <= n && r.source != [] && '0' <= r.source[0] <= '9'
  }

  lemma LoneRun(n: nat, policy: Policy)
    ensures var c := LoneImport(n, policy);
      Resolves(c) && Ids(c.rec.slugs, c.known) == [3] && RunOf(c.rec, c.known).skills == {3}
  {
    assert "left"[0] != "solo"[0] && "right"[0] != "solo"[0];
    assert forall id :: id in [3] <==> id == 3;
  }

  lemma LoneStep(s: State, n: nat, policy: Policy)
    requires LoneLog(s.ledger.log, n) && n + 1 < 10_000
    ensures var c := LoneImport(n + 1, policy);
      Import(s.ledger, c.known, c.rec, c.policy).1.Imported? && LoneLog(Step(s, c).ledger.log, n + 1)
  {
    hide PairTable, Overflows, EligibleEdges, SyncedEdges, Window;
    var c := LoneImport(n + 1, policy);
    LoneRun(n + 1, policy);
    NothingMissing(c.rec.slugs, c.known);
    VersionChecksum.DigitsReadBack(n + 1);
    var run := RunOf(c.rec, c.known);
    assert run !in s.ledger.log;
    assert |s.ledger.log + {run}| == n + 1;
    WindowIsPartOfLog(s.ledger.log + {run}, policy.windowDays);
    SmallWindowsFit(s.ledger.log + {run}, policy.windowDays);
  }

  lemma NoLoneRuns()
    ensures LoneLog({}, 0)
  {
  }

  lemma LoneCommand(n: nat, policy: Policy)
    ensures LoneImport(n, policy).policy == policy
  {
  }

  lemma {:induction false} DigitsAreShort(n: nat)
    ensures n < 10 ==> |VersionChecksum.Digits(n)| <= 1
    ensures n < 100 ==> |VersionChecksum.Digits(n)| <= 2
    ensures n < 1_000 ==> |VersionChecksum.Digits(n)| <= 3
    ensures n < 10_000 ==> |VersionChecksum.Digits(n)| <= 4
  {
    if n >= 10 {
      DigitsAreShort(n / 10);
    }
  }

  lemma LoneRecordPasses(n: nat, policy: Policy)
    requires n < 10_000
    ensures PassesTheApi(LoneImport(n, policy).rec)
  {
    hide SomeDigest, VersionChecksum.Digits;
    DigitsAreShort(n);
  }

  lemma {:induction false} LoneImportsAreAccepted(n: nat, policy: Policy)
    requires n < 10_000
    ensures AllAccepted(LoneImports(n, policy)) && LoneLog(Replay(INITIAL, LoneImports(n, policy)).ledger.log, n)
    ensures forall c | c in LoneImports(n, policy) :: PassesTheApi(c.rec)
  {
    hide Import, Step, LoneImport, LoneLog, PassesTheApi;
    if n == 0 {
      assert LoneLog({}, 0) by { NoLoneRuns(); }
    } else {
      var front := LoneImports(n - 1, policy);
      LoneImportsAreAccepted(n - 1, policy);
      LoneStep(Replay(INITIAL, front), n - 1, policy);
      LoneRecordPasses(n, policy);
      assert LoneImports(n, policy)[..|front|] == front;
      LoneCommand(n, policy);
    }
  }

  lemma PairAmongLoneRuns(lone: set<Run>, run: Run, days: nat)
    requires |lone| == 9_999 && forall r | r in lone :: r.observedAt == 0 && r.skills == {3}
    requires run.observedAt == 0 && run.skills == {1, 2}
    ensures exists p | p in PairsIn(Window(lone + {run}, days)) :: LiftOverflows(Window(lone + {run}, days), p)
  {
    var log, p := lone + {run}, (1, 2);
    assert run !in lone;
    assert Window(log, days) == log by {
      assert Latest(log) in Instants(log);
    }
    assert Using(log, 1) == {run} && Using(log, 2) == {run} && Together(log, p) == {run};
    PairsInMeaning(log, p);
    InseparablePairOverflowsIff(log, p);
    assert p in PairsIn(log) && LiftOverflows(log, p);
  }

  /** It can happen: 9,999 accepted imports of one skill, and then an import that passes the
      endpoint's checks, of two known skills that have not been seen, is refused. */
  lemma TenThousandthImportIsRefused(n: nat, policy: Policy)
    requires n == 9_999
    ensures var commands, last := LoneImports(n, policy), Record("pair", SomeDigest(), 0, ["left", "right"]);
      && AllAccepted(commands)
      && (forall c | c in commands :: PassesTheApi(c.rec)) && PassesTheApi(last)
      && Import(Replay(INITIAL, commands).ledger, KNOWN, last, policy).1 == NumericOverflow
  {
    hide AllAccepted, Replay, LoneImports, LoneImport, Import, PairTable, LiftOverflows, Window, SomeDigest;
    var last := Record("pair", SomeDigest(), 0, ["left", "right"]);
    LoneImportsAreAccepted(n, policy);
    var l := Replay(INITIAL, LoneImports(n, policy)).ledger;
    assert "left"[0] != "right"[0] && "left"[0] != "solo"[0] && "right"[0] != "solo"[0];
    assert last.slugs[0] != last.slugs[1];
    assert Ids(last.slugs, KNOWN) == [1, 2];
    var run := RunOf(last, KNOWN);
    assert run.skills == {1, 2} by {
      assert forall id :: id in [1, 2] <==> id == 1 || id == 2;
    }
    assert !Known(l.log, last.source, last.digest);
    PairAmongLoneRuns(l.log, run, policy.windowDays);
    ImportOverflowsIff(l, KNOWN, last, policy);
  }

  // --- Stale evidence -----------------------------------------------------------------------------------------

  const LETTERS: map<string, SkillId> := map["a" := 1, "b" := 2, "c" := 3]

  const PERMISSIVE: Policy := Policy(1, 0.0, 0.0, 30)

  function PairImport(source: string, slugs: seq<string>): Command {
    Command(LETTERS, Record(source, SomeDigest(), 0, slugs), PERMISSIVE)
  }

  function PairRun(source: string, skills: set<SkillId>): Run {
    Run(source, SomeDigest(), 0, skills)
  }

  lemma PairImportRuns()
    ensures var c := PairImport("one", ["a", "b"]);
      Resolves(c) && !Repeats(Ids(c.rec.slugs, c.known)) && RunOf(c.rec, c.known) == PairRun("one", {1, 2})
    ensures var c := PairImport("two", ["a", "c"]);
      Resolves(c) && !Repeats(Ids(c.rec.slugs, c.known)) && RunOf(c.rec, c.known) == PairRun("two", {1, 3})
    ensures var c := PairImport("three", ["b", "c"]);
      Resolves(c) && !Repeats(Ids(c.rec.slugs, c.known)) && RunOf(c.rec, c.known) == PairRun("three", {2, 3})
  {
    hide SomeDigest;
    assert "a"[0] != "b"[0] && "a"[0] != "c"[0] && "b"[0] != "c"[0];
    assert Ids(["a", "b"], LETTERS) == [1, 2] && Ids(["a", "c"], LETTERS) == [1, 3]
      && Ids(["b", "c"], LETTERS) == [2, 3];
    assert forall id :: id in [1, 2] <==> id in {1, 2};
    assert forall id :: id in [1, 3] <==> id in {1, 3};
    assert forall id :: id in [2, 3] <==> id in {2, 3};
  }

  ghost predicate AtInstantZero(log: set<Run>) {
    log != {} && |log| <= 3 && forall r | r in log :: r.observedAt == 0
  }

  lemma WholeLogIsWindow(log: set<Run>)
    requires AtInstantZero(log)
    ensures Window(log, PERMISSIVE.windowDays) == log
  {
    assert Latest(log) in Instants(log);
  }

  lemma SmallImportLeaves(s: State, c: Command)
    requires Resolves(c) && !Repeats(Ids(c.rec.slugs, c.known)) && !Known(s.ledger.log, c.rec.source, c.rec.digest)
    requires c.policy == PERMISSIVE && AtInstantZero(s.ledger.log + {RunOf(c.rec, c.known)})
    ensures Import(s.ledger, c.known, c.rec, c.policy).1.Imported?
    ensures var l := Step(s, c).ledger;
      && l.log == s.ledger.log + {RunOf(c.rec, c.known)}
      && l.pairs == PairTable(l.log, PERMISSIVE.windowDays)
      && ActiveEdges(l.edges) == EligibleEdges(l.pairs, PERMISSIVE)
  {
    hide PairTable, Overflows, EligibleEdges, ActiveEdges, SyncedEdges, Window, Repeats, RunOf;
    NothingMissing(c.rec.slugs, c.known);
    var log := s.ledger.log + {RunOf(c.rec, c.known)};
    WholeLogIsWindow(log);
    SmallWindowsFit(log, PERMISSIVE.windowDays);
    AcceptedImport(s.ledger, c);
  }

  lemma PairIsEligible(log: set<Run>, r: Run)
    requires AtInstantZero(log) && r in log && r.skills == {1, 2}
    ensures (1, 2) in EligibleEdges(PairTable(log, PERMISSIVE.windowDays), PERMISSIVE)
  {
    var p, pairs := (1, 2), PairTable(log, PERMISSIVE.windowDays);
    WholeLogIsWindow(log);
    PairsInMeaning(log, p);
    assert r in Together(log, p);
    ScoresOfAPair(log, p, PERMISSIVE.windowDays);
    PairCounts(log, p);
    RoundIsMonotone(1, 3, |Together(log, p)|, |Using(log, 1)|);
    assert Round6(1, 3) > 0;
    assert Passes(pairs[p], PERMISSIVE) && Undirected(p) == p;
  }

  lemma PairRate(log: set<Run>, r: Run, left: set<Run>, right: set<Run>)
    requires log != {} && Window(log, PERMISSIVE.windowDays) == log
    requires Using(log, 1) == left && Using(log, 2) == right && Together(log, (1, 2)) == {r}
      && Together(log, (2, 1)) == {r}
    ensures |left| > 0 && |right| > 0
    ensures var pairs := PairTable(log, PERMISSIVE.windowDays);
      (1, 2) in pairs && (2, 1) in pairs && pairs[(1, 2)].rate == Round6(1, |left|)
        && pairs[(2, 1)].rate == Round6(1, |right|)
  {
    PairsInMeaning(log, (1, 2));
    PairsInMeaning(log, (2, 1));
    PairCounts(log, (1, 2));
    PairCounts(log, (2, 1));
  }

  lemma RatesOfThree(one: Run, two: Run, three: Run)
    requires one.skills == {1, 2} && two.skills == {1, 3} && three.skills == {2, 3}
    requires AtInstantZero({one}) && AtInstantZero({one, two, three})
    ensures var pairs := PairTable({one}, PERMISSIVE.windowDays);
      (1, 2) in pairs && (2, 1) in pairs && LargerDirection(pairs, (1, 2)).rate == UNIT
    ensures var pairs := PairTable({one, two, three}, PERMISSIVE.windowDays);
      (1, 2) in pairs && (2, 1) in pairs && LargerDirection(pairs, (1, 2)).rate == UNIT / 2
  {
    var log := {one, two, three};
    WholeLogIsWindow({one});
    WholeLogIsWindow(log);
    PairRate({one}, one, {one}, {one});
    PairRate(log, one, {one, two}, {one, three});
    assert Round6(1, 1) == UNIT && Round6(1, 2) == UNIT / 2;
  }

  ghost predicate ImportsRun(s: State, c: Command, r: Run) {
    && Resolves(c) && !Repeats(Ids(c.rec.slugs, c.known)) && RunOf(c.rec, c.known) == r
    && c.policy == PERMISSIVE && PassesTheApi(c.rec)
    && (forall q | q in s.ledger.log :: q.source != c.rec.source)
    && AtInstantZero(s.ledger.log + {r})
  }

  /** What the import of such a run leaves behind. */
  ghost predicate Leaves(s: State, c: Command, log: set<Run>) {
    && Import(s.ledger, c.known, c.rec, c.policy).1.Imported?
    && var l := Step(s, c).ledger;
       && l.log == log && l.pairs == PairTable(log, PERMISSIVE.windowDays) && (1, 2) in ActiveEdges(l.edges)
  }

  lemma ImportLeaves(s: State, c: Command, r: Run, pair: Run)
    requires ImportsRun(s, c, r) && pair in s.ledger.log + {r} && pair.skills == {1, 2}
    ensures Leaves(s, c, s.ledger.log + {r})
  {
    hide PairTable, EligibleEdges, ActiveEdges, Import, Step, Repeats, RunOf, PassesTheApi;
    assert !Known(s.ledger.log, c.rec.source, c.rec.digest);
    SmallImportLeaves(s, c);
    PairIsEligible(s.ledger.log + {r}, pair);
  }

  lemma PairImportsPass(source: string, slugs: seq<string>)
    requires source in {"one", "two", "three"} && |slugs| == 2 && slugs[0] != slugs[1]
    ensures PassesTheApi(PairImport(source, slugs).rec) && PairImport(source, slugs).policy == PERMISSIVE
    ensures PairImport(source, slugs).rec.source == source
  {
    hide SomeDigest;
  }

  lemma ThreeImports(s1: State, s2: State)
    requires s1 == Step(INITIAL, PairImport("one", ["a", "b"])) && s2 == Step(s1, PairImport("two", ["a", "c"]))
    ensures var r1, r2, r3 := PairRun("one", {1, 2}), PairRun("two", {1, 3}), PairRun("three", {2, 3});
      && Leaves(INITIAL, PairImport("one", ["a", "b"]), {r1})
      && Leaves(s1, PairImport("two", ["a", "c"]), {r1, r2})
      && Leaves(s2, PairImport("three", ["b", "c"]), {r1, r2, r3})
      && AtInstantZero({r1}) && AtInstantZero({r1, r2, r3})
  {
    hide PairTable, EligibleEdges, ActiveEdges, Import, Step, Repeats, RunOf, PassesTheApi, SomeDigest, PairImport;
    var r1, r2, r3 := PairRun("one", {1, 2}), PairRun("two", {1, 3}), PairRun("three", {2, 3});
    PairImportRuns();
    assert "a"[0] != "b"[0] && "a"[0] != "c"[0] && "b"[0] != "c"[0];
    PairImportsPass("one", ["a", "b"]);
    PairImportsPass("two", ["a", "c"]);
    PairImportsPass("three", ["b", "c"]);
    assert |"one"| != |"three"| && |"two"| != |"three"| && "one"[0] != "two"[0];
    assert {} + {r1} == {r1} && {r1} + {r2} == {r1, r2} && {r1, r2} + {r3} == {r1, r2, r3};
    ImportLeaves(INITIAL, PairImport("one", ["a", "b"]), r1, r1);
    ImportLeaves(s1, PairImport("two", ["a", "c"]), r2, r1);
    ImportLeaves(s2, PairImport("three", ["b", "c"]), r3, r1);
  }

  lemma ReplayThree(s: State, a: Command, b: Command, c: Command)
    ensures Replay(s, []) == s && Replay(s, [a]) == Step(s, a)
    ensures Replay(s, [a, b]) == Step(Step(s, a), b) && Replay(s, [a, b, c]) == Step(Step(Step(s, a), b), c)
  {
    hide Step;
    assert [a][..0] == [] && [a, b][..1] == [a] && [a, b, c][..2] == [a, b];
  }

  lemma AllThreeAccepted(a: Command, b: Command, c: Command)
    requires Import(EMPTY, a.known, a.rec, a.policy).1.Imported?
    requires Import(Step(INITIAL, a).ledger, b.known, b.rec, b.policy).1.Imported?
    requires Import(Step(Step(INITIAL, a), b).ledger, c.known, c.rec, c.policy).1.Imported?
    ensures AllAccepted([a, b, c])
  {
    hide Step, Import;
    ReplayThree(INITIAL, a, b, c);
    assert [a][..0] == [] && [a, b][..1] == [a] && [a, b, c][..2] == [a, b];
    assert AllAccepted([a]);
    assert AllAccepted([a, b]);
  }

  lemma FirstEdge(c: Command, e: Pair)
    requires Import(EMPTY, c.known, c.rec, c.policy).1.Imported? && e in ActiveEdges(Step(INITIAL, c).ledger.edges)
    ensures var l := Step(INITIAL, c).ledger;
      e in l.edges && e in l.pairs && (e.1, e.0) in l.pairs && l.edges[e] == FreshEdge(LargerDirection(l.pairs, e))
  {
    hide PairTable, LargerDirection, Import, FreshEdge, EligibleEdges;
    AcceptedImport(EMPTY, c);
  }

  lemma FreshConfidence(row: PairRow)
    requires row.rate == UNIT
    ensures FreshEdge(row).confidence == UNIT && FreshEdge(row).evidence.rate == UNIT
  {
  }

  lemma StaysThroughTwo(s: State, a: Command, b: Command, e: Pair)
    requires e in ActiveEdges(s.ledger.edges) && e in ActiveEdges(Step(s, a).ledger.edges)
      && e in ActiveEdges(Step(Step(s, a), b).ledger.edges)
    ensures var last := Step(Step(s, a), b).ledger.edges;
      e in s.ledger.edges && e in last && last[e] == s.ledger.edges[e]
  {
    hide Step, ActiveEdges, Replay;
    ReplayThree(s, a, b, b);
    assert [a, b][..0] == [] && [a, b][..1] == [a] && [a, b][..2] == [a, b];
    EvidenceIsFrozenWhileActive(s, [a, b], e);
  }

  /** It happens within three imports: the edge of the first stays active, and its confidence is
      still one when the rate of its pair has fallen to one half. */
  lemma EvidenceCanBeStale() returns (commands: seq<Command>)
    ensures |commands| == 3 && AllAccepted(commands) && forall c | c in commands :: PassesTheApi(c.rec)
    ensures var l, e := Replay(INITIAL, commands).ledger, (1, 2);
      && e in ActiveEdges(l.edges) && e in l.edges && e in l.pairs && (2, 1) in l.pairs
      && l.edges[e].confidence == UNIT && l.edges[e].evidence.rate == UNIT
      && LargerDirection(l.pairs, e).rate == UNIT / 2
  {
    hide PairImport, Step, Replay, Import, PairTable, EligibleEdges, ActiveEdges, LargerDirection, PassesTheApi,
      AtInstantZero, FreshEdge, AllAccepted, StaysActive;
    var c1, c2, c3 := PairImport("one", ["a", "b"]), PairImport("two", ["a", "c"]), PairImport("three", ["b", "c"]);
    var s1 := Step(INITIAL, c1);
    var s2 := Step(s1, c2);
    ThreeImports(s1, s2);
    RatesOfThree(PairRun("one", {1, 2}), PairRun("two", {1, 3}), PairRun("three", {2, 3}));
    var e := (1, 2);
    FirstEdge(c1, e);
    FreshConfidence(LargerDirection(s1.ledger.pairs, e));
    AllThreeAccepted(c1, c2, c3);
    ReplayThree(INITIAL, c1, c2, c3);
    StaysThroughTwo(s1, c2, c3, e);
    assert "a"[0] != "b"[0] && "a"[0] != "c"[0] && "b"[0] != "c"[0];
    PairImportsPass("one", ["a", "b"]);
    PairImportsPass("two", ["a", "c"]);
    PairImportsPass("three", ["b", "c"]);
    commands := [c1, c2, c3];
  }
}
