/** Laws of co-usage evidence over every sequence of imports. */
module CoUsageLaws {
  import opened Collections
  import opened CoUsage
  import Fusion

  /** One import request together with the skill table it meets. */
  datatype Command = Command(known: map<string, SkillId>, rec: Record, policy: Policy)

  /** A ledger and the policy of the last accepted import. */
  datatype State = State(ledger: Ledger, last: Option<Policy>)

  const INITIAL: State := State(EMPTY, None)

  function Step(s: State, c: Command): State {
    var (ledger, outcome) := Import(s.ledger, c.known, c.rec, c.policy);
    if outcome.Imported? then State(ledger, Some(c.policy)) else s
  }

  function Replay(s: State, commands: seq<Command>): State {
    if commands == [] then s else Step(Replay(s, commands[..|commands| - 1]), commands[|commands| - 1])
  }

  ghost predicate Resolves(c: Command) {
    forall s | s in c.rec.slugs :: s in c.known
  }

  ghost predicate UniqueKeys(log: set<Run>) {
    forall r, q | r in log && q in log && r.source == q.source && r.digest == q.digest :: r == q
  }

  /** Everything derived agrees with the log and the last policy. */
  ghost predicate Derived(s: State) {
    && UniqueKeys(s.ledger.log)
    && (forall e | e in s.ledger.edges :: e.0 < e.1)
    && match s.last
       case None => s.ledger == EMPTY
       case Some(policy) =>
         && s.ledger.log != {}
         && s.ledger.pairs == PairTable(s.ledger.log, policy.windowDays)
         && !Overflows(s.ledger.pairs)
         && ActiveEdges(s.ledger.edges) == EligibleEdges(s.ledger.pairs, policy)
  }

  /** What an accepted import amounts to. */
  ghost predicate Accepts(l: Ledger, c: Command, next: Ledger, outcome: Outcome) {
    && Resolves(c)
    && !Known(l.log, c.rec.source, c.rec.digest)
    && next.log == l.log + {RunOf(c.rec, c.known)}
    && next.pairs == PairTable(next.log, c.policy.windowDays)
    && !Overflows(next.pairs)
    && ActiveEdges(next.edges) == EligibleEdges(next.pairs, c.policy)
    && (forall e | e in ActiveEdges(next.edges) :: e in next.pairs && (e.1, e.0) in next.pairs && e.0 < e.1)
    && (forall e | e in next.edges :: e in l.edges || e in ActiveEdges(next.edges))
    && (forall e | e in ActiveEdges(next.edges) ::
          next.edges[e]
            == (if e in ActiveEdges(l.edges) then l.edges[e] else FreshEdge(LargerDirection(next.pairs, e))))
    && outcome == Imported(|c.rec.slugs|, |next.pairs|,
                           |ActiveEdges(next.edges) - ActiveEdges(l.edges)|,
                             |ActiveEdges(l.edges) - ActiveEdges(next.edges)|)
  }

  lemma SyncActivatesEligible(edges: map<Pair, Edge>, pairs: map<Pair, PairRow>, policy: Policy)
    requires forall e | e in EligibleEdges(pairs, policy) :: e in pairs && (e.1, e.0) in pairs
    ensures ActiveEdges(SyncedEdges(edges, pairs, policy)) == EligibleEdges(pairs, policy)
    ensures forall e | e in SyncedEdges(edges, pairs, policy) :: e in edges || e in EligibleEdges(pairs, policy)
    ensures forall e | e in EligibleEdges(pairs, policy) ::
      SyncedEdges(edges, pairs, policy)[e]
        == (if e in ActiveEdges(edges) then edges[e] else FreshEdge(LargerDirection(pairs, e)))
  {
    hide EligibleEdges, LargerDirection;
    var synced, eligible := SyncedEdges(edges, pairs, policy), EligibleEdges(pairs, policy);
    forall e ensures e in ActiveEdges(synced) <==> e in eligible {
      assert e in synced <==> e in edges.Keys + eligible;
    }
  }

  lemma AcceptedImport(l: Ledger, c: Command)
    requires Import(l, c.known, c.rec, c.policy).1.Imported?
    ensures Accepts(l, c, Import(l, c.known, c.rec, c.policy).0, Import(l, c.known, c.rec, c.policy).1)
  {
    hide PairTable, EligibleEdges, ActiveEdges, Overflows, LargerDirection, RunOf, SyncedEdges, Repeats;
    NothingMissing(c.rec.slugs, c.known);
    var log := l.log + {RunOf(c.rec, c.known)};
    EligibleHaveBothDirections(log, c.policy);
    SyncActivatesEligible(l.edges, PairTable(log, c.policy.windowDays), c.policy);
  }

  lemma AcceptKeepsDerived(s: State, c: Command, next: Ledger, outcome: Outcome)
    requires Derived(s) && Accepts(s.ledger, c, next, outcome)
    ensures Derived(State(next, Some(c.policy)))
  {
    hide PairTable, EligibleEdges, ActiveEdges, Overflows, LargerDirection;
  }

  lemma StepKeepsDerived(s: State, c: Command)
    requires Derived(s)
    ensures Derived(Step(s, c))
  {
    var r := Import(s.ledger, c.known, c.rec, c.policy);
    if r.1.Imported? {
      AcceptedImport(s.ledger, c);
      AcceptKeepsDerived(s, c, r.0, r.1);
    }
  }

  /** After any sequence of imports, accepted or refused, the pair table is the declared function
      of the accepted runs and the last accepted policy, the active edges are exactly the eligible
      unordered pairs, no edge repeats an unordered pair, and every stored score fits its column. */
  lemma {:induction false} ImportsKeepDerivedTables(commands: seq<Command>)
    ensures Derived(Replay(INITIAL, commands))
  {
    if commands != [] {
      ImportsKeepDerivedTables(commands[..|commands| - 1]);
      StepKeepsDerived(Replay(INITIAL, commands[..|commands| - 1]), commands[|commands| - 1]);
    }
  }

  // --- Import order ------------------------------------------------------------------------------

  /** Every import in the sequence is accepted. */
  ghost predicate AllAccepted(commands: seq<Command>) {
    commands == [] ||
    (var n := |commands| - 1;
     var c := commands[n];
     AllAccepted(commands[..n]) && Import(Replay(INITIAL, commands[..n]).ledger, c.known, c.rec, c.policy).1.Imported?)
  }

  ghost function RunsOf(commands: seq<Command>): set<Run> {
    set c | c in commands && Resolves(c) :: RunOf(c.rec, c.known)
  }

  lemma RunsOfOneMore(front: seq<Command>, c: Command)
    requires Resolves(c)
    ensures RunsOf(front + [c]) == RunsOf(front) + {RunOf(c.rec, c.known)}
  {
    forall r ensures r in RunsOf(front + [c]) <==> r in RunsOf(front) || r == RunOf(c.rec, c.known) {
      assert forall d :: d in front + [c] <==> d in front || d == c;
    }
  }

  lemma NoRuns()
    ensures RunsOf([]) == {}
  {
    hide RunOf;
  }

  lemma StepAccepts(s: State, c: Command)
    requires Import(s.ledger, c.known, c.rec, c.policy).1.Imported?
    ensures Resolves(c)
    ensures Step(s, c).ledger.log == s.ledger.log + {RunOf(c.rec, c.known)} && Step(s, c).last == Some(c.policy)
  {
    AcceptedImport(s.ledger, c);
  }

  lemma {:induction false} AcceptedRunsAreTheLog(commands: seq<Command>)
    requires AllAccepted(commands)
    ensures Replay(INITIAL, commands).ledger.log == RunsOf(commands)
    ensures commands != [] ==> Replay(INITIAL, commands).last == Some(commands[|commands| - 1].policy)
  {
    hide Import, Step, RunsOf, RunOf;
    if commands == [] {
      NoRuns();
    } else {
      var n := |commands| - 1;
      AcceptedRunsAreTheLog(commands[..n]);
      var before, c := Replay(INITIAL, commands[..n]), commands[n];
      StepAccepts(before, c);
      assert commands == commands[..n] + [c];
      RunsOfOneMore(commands[..n], c);
    }
  }

  /** The order of imports does not matter: two sequences with the same accepted runs that end
      with the same policy derive the same pair table and the same active edges. */
  lemma SameRunsSameTables(a: seq<Command>, b: seq<Command>)
    requires Replay(INITIAL, a).ledger.log == Replay(INITIAL, b).ledger.log
    requires Replay(INITIAL, a).last == Replay(INITIAL, b).last
    ensures Replay(INITIAL, a).ledger.pairs == Replay(INITIAL, b).ledger.pairs
    ensures ActiveEdges(Replay(INITIAL, a).ledger.edges) == ActiveEdges(Replay(INITIAL, b).ledger.edges)
  {
    ImportsKeepDerivedTables(a);
    ImportsKeepDerivedTables(b);
  }

  // --- Acceptance in any order ------------------------------------------------------------------

  function Key(c: Command): (string, string) {
    (c.rec.source, c.rec.digest)
  }

  /** What an import must bring along whatever the log is: known and distinct skills. */
  ghost predicate Importable(c: Command) {
    Resolves(c) && !Repeats(Ids(c.rec.slugs, c.known))
  }

  ghost predicate DistinctKeys(commands: seq<Command>) {
    forall i, j | 0 <= i < j < |commands| :: Key(commands[i]) != Key(commands[j])
  }

  /** The same, said without positions. */
  ghost predicate DistinctInBag(bag: multiset<Command>) {
    forall c, d | c in bag && d in bag && Key(c) == Key(d) :: c == d && bag[c] == 1
  }

  lemma LastKey(front: seq<Command>, last: Command)
    ensures DistinctKeys(front + [last]) <==> DistinctKeys(front) && forall c | c in front :: Key(c) != Key(last)
    ensures DistinctInBag(multiset(front) + multiset{last})
      <==> DistinctInBag(multiset(front)) && forall c | c in front :: Key(c) != Key(last)
  {
    var all, bag := front + [last], multiset(front) + multiset{last};
    assert forall c :: c in front <==> c in multiset(front);
    if DistinctKeys(all) {
      forall c | c in front ensures Key(c) != Key(last) {
        var i :| 0 <= i < |front| && front[i] == c;
        assert all[i] == c && all[|front|] == last;
      }
      forall i, j | 0 <= i < j < |front| ensures Key(front[i]) != Key(front[j]) {
        assert all[i] == front[i] && all[j] == front[j];
      }
    }
    if DistinctInBag(bag) {
      forall c | c in front ensures Key(c) != Key(last) {
        assert c in bag && last in bag;
        assert c == last ==> bag[c] >= 2;
      }
      forall c, d | c in multiset(front) && d in multiset(front) && Key(c) == Key(d)
        ensures c == d && multiset(front)[c] == 1
      {
        assert c in bag && d in bag && bag[c] >= multiset(front)[c];
      }
    }
  }

  lemma {:induction false} DistinctKeysInBag(commands: seq<Command>)
    ensures DistinctKeys(commands) <==> DistinctInBag(multiset(commands))
  {
    if commands == [] {
      return;
    }
    var n := |commands| - 1;
    var front, last := commands[..n], commands[n];
    DistinctKeysInBag(front);
    assert commands == front + [last];
    assert multiset(commands) == multiset(front) + multiset{last};
    LastKey(front, last);
  }

  lemma AcceptedIsImportable(l: Ledger, c: Command)
    requires Import(l, c.known, c.rec, c.policy).1.Imported?
    ensures Importable(c) && !Known(l.log, c.rec.source, c.rec.digest)
  {
    hide PairTable, Overflows, EligibleEdges, SyncedEdges, Repeats;
    NothingMissing(c.rec.slugs, c.known);
  }

  lemma LastIsAccepted(front: seq<Command>, last: Command)
    requires AllAccepted(front + [last])
    ensures AllAccepted(front) && Importable(last) && !Known(RunsOf(front), last.rec.source, last.rec.digest)
  {
    hide Import, Replay, Importable, RunsOf, Known;
    assert (front + [last])[..|front|] == front;
    AcceptedRunsAreTheLog(front);
    AcceptedIsImportable(Replay(INITIAL, front).ledger, last);
  }

  lemma NoKeys()
    ensures DistinctKeys([])
  {
  }

  lemma UnknownIsNewKey(front: seq<Command>, last: Command)
    requires !Known(RunsOf(front), last.rec.source, last.rec.digest) && forall c | c in front :: Importable(c)
    ensures forall c | c in front :: Key(c) != Key(last)
  {
    forall c | c in front ensures Key(c) != Key(last) {
      assert RunOf(c.rec, c.known) in RunsOf(front);
    }
  }

  lemma {:induction false} AcceptedAreImportable(commands: seq<Command>)
    requires AllAccepted(commands)
    ensures DistinctKeys(commands) && forall c | c in commands :: Importable(c)
  {
    NoKeys();
    hide AllAccepted, Importable, RunsOf, Known, DistinctKeys, DistinctInBag, Key;
    if commands != [] {
      var front, last := commands[..|commands| - 1], commands[|commands| - 1];
      assert commands == front + [last];
      LastIsAccepted(front, last);
      AcceptedAreImportable(front);
      UnknownIsNewKey(front, last);
      LastKey(front, last);
    }
  }

  lemma WindowIsPartOfLog(log: set<Run>, days: nat)
    requires log != {}
    ensures |Window(log, days)| <= |log|
  {
    SubsetSize(Window(log, days), log);
  }

  lemma SmallImportIsAccepted(l: Ledger, c: Command)
    requires Importable(c) && !Known(l.log, c.rec.source, c.rec.digest) && |l.log| + 1 < 10_000
    ensures Import(l, c.known, c.rec, c.policy).1.Imported?
  {
    hide PairTable, Overflows, EligibleEdges, SyncedEdges, Repeats, Window, RunOf;
    NothingMissing(c.rec.slugs, c.known);
    var log := l.log + {RunOf(c.rec, c.known)};
    WindowIsPartOfLog(log, c.policy.windowDays);
    SmallWindowsFit(log, c.policy.windowDays);
  }

  lemma NewKeyIsUnknown(front: seq<Command>, last: Command)
    requires forall c | c in front :: Key(c) != Key(last)
    ensures !Known(RunsOf(front), last.rec.source, last.rec.digest)
  {
  }

  lemma RunIsNew(log: set<Run>, c: Command)
    requires Resolves(c) && !Known(log, c.rec.source, c.rec.digest)
    ensures RunOf(c.rec, c.known) !in log && |log + {RunOf(c.rec, c.known)}| == |log| + 1
  {
  }

  lemma ImportableResolves(c: Command)
    requires Importable(c)
    ensures Resolves(c)
  {
  }

  lemma OneMoreIsAccepted(front: seq<Command>, last: Command)
    requires AllAccepted(front) && |Replay(INITIAL, front).ledger.log| == |front| && |front| + 1 < 10_000
    requires Importable(last) && forall c | c in front :: Key(c) != Key(last)
    ensures AllAccepted(front + [last]) && |Replay(INITIAL, front + [last]).ledger.log| == |front| + 1
  {
    hide Import, Step, Known, RunOf, RunsOf, Importable, Key;
    var before := Replay(INITIAL, front);
    assert (front + [last])[..|front|] == front;
    AcceptedRunsAreTheLog(front);
    NewKeyIsUnknown(front, last);
    SmallImportIsAccepted(before.ledger, last);
    StepAccepts(before, last);
    ImportableResolves(last);
    RunIsNew(before.ledger.log, last);
  }

  lemma NothingIsAccepted()
    ensures AllAccepted([]) && |Replay(INITIAL, []).ledger.log| == 0
  {
  }

  /** Below ten thousand runs acceptance does not depend on the order: importable requests with
      distinct keys are all accepted. */
  lemma {:induction false} SmallHistoriesAreAccepted(commands: seq<Command>)
    requires |commands| < 10_000 && DistinctKeys(commands) && forall c | c in commands :: Importable(c)
    ensures AllAccepted(commands) && |Replay(INITIAL, commands).ledger.log| == |commands|
  {
    hide AllAccepted, Replay, DistinctKeys, DistinctInBag, Importable, Key;
    if commands == [] {
      NothingIsAccepted();
    } else {
      var front, last := commands[..|commands| - 1], commands[|commands| - 1];
      assert commands == front + [last];
      LastKey(front, last);
      SmallHistoriesAreAccepted(front);
      OneMoreIsAccepted(front, last);
    }
  }

  lemma ReorderedImportsAreAccepted(a: seq<Command>, b: seq<Command>)
    requires AllAccepted(a) && multiset(a) == multiset(b) && |a| < 10_000
    ensures AllAccepted(b)
  {
    hide AllAccepted, DistinctKeys, DistinctInBag, Importable;
    AcceptedAreImportable(a);
    DistinctKeysInBag(a);
    DistinctKeysInBag(b);
    assert |a| == |multiset(a)| && |b| == |multiset(b)|;
    forall c | c in b ensures Importable(c) {
      assert c in multiset(b);
    }
    SmallHistoriesAreAccepted(b);
  }

  /** In particular any reordering of accepted imports that keeps the final policy. Below ten
      thousand imports the other order is accepted as well. */
  lemma ReorderedImportsAgree(a: seq<Command>, b: seq<Command>)
    requires AllAccepted(a) && multiset(a) == multiset(b) && (AllAccepted(b) || |a| < 10_000)
    requires a != [] && a[|a| - 1].policy == b[|b| - 1].policy
    ensures AllAccepted(b)
    ensures Replay(INITIAL, a).ledger.pairs == Replay(INITIAL, b).ledger.pairs
    ensures ActiveEdges(Replay(INITIAL, a).ledger.edges) == ActiveEdges(Replay(INITIAL, b).ledger.edges)
  {
    assert forall c :: c in a <==> c in multiset(a);
    assert forall c :: c in b <==> c in multiset(b);
    if |a| < 10_000 {
      ReorderedImportsAreAccepted(a, b);
    }
    AcceptedRunsAreTheLog(a);
    AcceptedRunsAreTheLog(b);
    assert RunsOf(a) == RunsOf(b);
    SameRunsSameTables(a, b);
  }

  lemma OldRunIsOutside(log: set<Run>, run: Run, days: nat)
    requires log != {} && run.observedAt < Latest(log) - days * MICROS_PER_DAY
    ensures PairTable(log + {run}, days) == PairTable(log, days)
  {
    var more := log + {run};
    var newest :| newest in log && newest.observedAt == Latest(log);
    assert Latest(more) == Latest(log) by {
      assert newest in more && newest.observedAt in Instants(more);
      var top :| top in more && top.observedAt == Latest(more);
      assert top in log ==> top.observedAt in Instants(log);
    }
    assert Window(more, days) == Window(log, days);
  }

  /** An import of known, distinct skills whose run is older than the window is accepted: the run
      enters the log, and the stored pairs and the set of active edges stay as they are. */
  lemma OldRunLeavesPairs(s: State, c: Command)
    requires Derived(s) && s.last == Some(c.policy)
      && c.rec.observedAt < Latest(s.ledger.log) - c.policy.windowDays * MICROS_PER_DAY
    requires Resolves(c) && !Repeats(Ids(c.rec.slugs, c.known)) && !Known(s.ledger.log, c.rec.source, c.rec.digest)
    ensures Import(s.ledger, c.known, c.rec, c.policy).1 == Imported(|c.rec.slugs|, |s.ledger.pairs|, 0, 0)
    ensures Step(s, c).ledger.log == s.ledger.log + {RunOf(c.rec, c.known)}
    ensures Step(s, c).ledger.pairs == s.ledger.pairs
    ensures ActiveEdges(Step(s, c).ledger.edges) == ActiveEdges(s.ledger.edges)
  {
    hide PairTable, Overflows, EligibleEdges, ActiveEdges, SyncedEdges, Repeats, Latest;
    NothingMissing(c.rec.slugs, c.known);
    OldRunIsOutside(s.ledger.log, RunOf(c.rec, c.known), c.policy.windowDays);
    AcceptedImport(s.ledger, c);
  }

  /** Under another policy with the same window the stored pairs stay as well. */
  lemma OldRunLeavesPairsOfTheWindow(s: State, c: Command)
    requires Derived(s) && s.last.Some? && s.last.value.windowDays == c.policy.windowDays
    requires c.rec.observedAt < Latest(s.ledger.log) - c.policy.windowDays * MICROS_PER_DAY
    requires Resolves(c) && !Repeats(Ids(c.rec.slugs, c.known)) && !Known(s.ledger.log, c.rec.source, c.rec.digest)
    ensures Step(s, c).ledger.log == s.ledger.log + {RunOf(c.rec, c.known)}
    ensures Step(s, c).ledger.pairs == s.ledger.pairs
  {
    hide PairTable, Overflows, EligibleEdges, ActiveEdges, SyncedEdges, Repeats, Latest;
    NothingMissing(c.rec.slugs, c.known);
    OldRunIsOutside(s.ledger.log, RunOf(c.rec, c.known), c.policy.windowDays);
    AcceptedImport(s.ledger, c);
  }

  // --- What the import reports -----------------------------------------------------------------------

  lemma Exchange<T>(before: set<T>, after: set<T>)
    ensures |after| == |before| + |after - before| - |before - after|
  {
    assert after + (before - after) == before + (after - before);
    assert |after + (before - after)| == |after| + |before - after|;
    assert |before + (after - before)| == |before| + |after - before|;
  }

  lemma AcceptedCounts(l: Ledger, c: Command, next: Ledger, outcome: Outcome)
    requires Accepts(l, c, next, outcome)
    ensures |ActiveEdges(next.edges)| == |ActiveEdges(l.edges)| + outcome.activated - outcome.deactivated
    ensures |next.log| == |l.log| + 1
  {
    hide PairTable, EligibleEdges, Overflows, LargerDirection;
    Exchange(ActiveEdges(l.edges), ActiveEdges(next.edges));
    assert RunOf(c.rec, c.known) !in l.log;
  }

  /** Activated and deactivated counts are exact, the active edges grow by their difference, and
      exactly one run is added. */
  lemma ReportedCountsAreExact(l: Ledger, c: Command)
    requires Import(l, c.known, c.rec, c.policy).1.Imported?
    ensures var (next, outcome) := Import(l, c.known, c.rec, c.policy);
      && outcome.activated == |ActiveEdges(next.edges) - ActiveEdges(l.edges)|
      && outcome.deactivated == |ActiveEdges(l.edges) - ActiveEdges(next.edges)|
      && |ActiveEdges(next.edges)| == |ActiveEdges(l.edges)| + outcome.activated - outcome.deactivated
      && |next.log| == |l.log| + 1
  {
    AcceptedImport(l, c);
    var r := Import(l, c.known, c.rec, c.policy);
    AcceptedCounts(l, c, r.0, r.1);
  }

  // --- Evidence of active edges ------------------------------------------------------------------------

  lemma Fresh(pairs: map<Pair, PairRow>, e: Pair)
    ensures forall row: PairRow :: FreshEdge(row).active && FreshEdge(row).evidence == row
  {
  }

  /** One step: an edge that is active after an accepted import shows the present row of its pair,
      confidence included, exactly when it was inactive before or already showed that row. */
  lemma EvidenceIsCurrentIff(l: Ledger, c: Command, e: Pair)
    requires Import(l, c.known, c.rec, c.policy).1.Imported? && Resolves(c)
    requires e in EligibleEdges(PairTable(l.log + {RunOf(c.rec, c.known)}, c.policy.windowDays), c.policy)
    ensures var present := PairTable(l.log + {RunOf(c.rec, c.known)}, c.policy.windowDays);
      var next := Import(l, c.known, c.rec, c.policy).0;
      && e in present && (e.1, e.0) in present && e in next.edges
      && (next.edges[e] == FreshEdge(LargerDirection(present, e))
          <==> e !in ActiveEdges(l.edges) || l.edges[e] == FreshEdge(LargerDirection(present, e)))
  {
    hide PairTable, EligibleEdges, Overflows, LargerDirection, RunOf, Import, FreshEdge;
    AcceptedImport(l, c);
    Fresh(Import(l, c.known, c.rec, c.policy).0.pairs, e);
  }

  lemma NothingActive(e: Pair)
    ensures e !in ActiveEdges(INITIAL.ledger.edges)
  {
  }

  /** The import that last activated an edge. */
  lemma {:induction false} LastActivation(commands: seq<Command>, e: Pair) returns (k: nat)
    requires e in ActiveEdges(Replay(INITIAL, commands).ledger.edges)
    ensures 0 < k <= |commands|
    ensures e !in ActiveEdges(Replay(INITIAL, commands[..k - 1]).ledger.edges)
    ensures forall m | k <= m <= |commands| :: e in ActiveEdges(Replay(INITIAL, commands[..m]).ledger.edges)
  {
    hide Step, ActiveEdges;
    NothingActive(e);
    var n := |commands| - 1;
    if e in ActiveEdges(Replay(INITIAL, commands[..n]).ledger.edges) {
      k := LastActivation(commands[..n], e);
      assert commands[..n][..k - 1] == commands[..k - 1];
      forall m | k <= m <= |commands| ensures e in ActiveEdges(Replay(INITIAL, commands[..m]).ledger.edges) {
        if m <= n { assert commands[..n][..m] == commands[..m]; } else { assert commands[..m] == commands; }
      }
    } else {
      k := n + 1;
      assert commands[..k] == commands;
    }
  }

  lemma {:induction false} ReplayInTwo(commands: seq<Command>, k: nat, n: nat)
    requires k + n <= |commands|
    ensures Replay(Replay(INITIAL, commands[..k]), commands[k..][..n]) == Replay(INITIAL, commands[..k + n])
  {
    hide Step;
    if n > 0 {
      ReplayInTwo(commands, k, n - 1);
      assert commands[k..][..n][..n - 1] == commands[k..][..n - 1];
      assert commands[..k + n][..k + n - 1] == commands[..k + n - 1];
    }
  }

  lemma StepKeepsActiveEdge(s: State, c: Command, e: Pair)
    requires e in ActiveEdges(s.ledger.edges) && e in ActiveEdges(Step(s, c).ledger.edges)
    ensures Step(s, c).ledger.edges[e] == s.ledger.edges[e]
  {
    var r := Import(s.ledger, c.known, c.rec, c.policy);
    if r.1.Imported? {
      AcceptedImport(s.ledger, c);
    }
  }

  ghost predicate StaysActive(s: State, commands: seq<Command>, e: Pair) {
    forall n | 0 <= n <= |commands| :: e in ActiveEdges(Replay(s, commands[..n]).ledger.edges)
  }

  /** As long as an edge stays active, its confidence and evidence are those of its activation. */
  lemma {:induction false} EvidenceIsFrozenWhileActive(s: State, commands: seq<Command>, e: Pair)
    requires StaysActive(s, commands, e)
    ensures e in s.ledger.edges && e in Replay(s, commands).ledger.edges
    ensures Replay(s, commands).ledger.edges[e] == s.ledger.edges[e]
  {
    assert commands[..|commands|] == commands;
    assert commands[..0] == [];
    assert e in ActiveEdges(Replay(s, commands[..0]).ledger.edges);
    if commands != [] {
      var n := |commands| - 1;
      forall k | 0 <= k <= n ensures e in ActiveEdges(Replay(s, commands[..n][..k]).ledger.edges) {
        assert commands[..n][..k] == commands[..k];
      }
      EvidenceIsFrozenWhileActive(s, commands[..n], e);
      var before, c := Replay(s, commands[..n]), commands[n];
      assert Replay(s, commands) == Step(before, c);
      StepKeepsActiveEdge(before, c, e);
    }
  }

  lemma StaysSince(commands: seq<Command>, e: Pair, k: nat)
    requires k <= |commands| && forall m | k <= m <= |commands| ::
      e in ActiveEdges(Replay(INITIAL, commands[..m]).ledger.edges)
    ensures e in Replay(INITIAL, commands[..k]).ledger.edges && e in Replay(INITIAL, commands).ledger.edges
    ensures Replay(INITIAL, commands).ledger.edges[e] == Replay(INITIAL, commands[..k]).ledger.edges[e]
  {
    hide Step;
    var s, later := Replay(INITIAL, commands[..k]), commands[k..];
    forall n | 0 <= n <= |later| ensures Replay(s, later[..n]) == Replay(INITIAL, commands[..k + n]) {
      ReplayInTwo(commands, k, n);
    }
    assert later[..|later|] == later && commands[..k + |later|] == commands;
    EvidenceIsFrozenWhileActive(s, later, e);
  }

  lemma ActiveIsStored(edges: map<Pair, Edge>)
    ensures ActiveEdges(edges) <= edges.Keys
  {
  }

  lemma ActivationIsFresh(commands: seq<Command>, e: Pair)
    requires commands != [] && e in ActiveEdges(Replay(INITIAL, commands).ledger.edges)
    requires e !in ActiveEdges(Replay(INITIAL, commands[..|commands| - 1]).ledger.edges)
    ensures var s := Replay(INITIAL, commands).ledger;
      && s.pairs == PairTable(s.log, commands[|commands| - 1].policy.windowDays)
      && e in s.pairs && (e.1, e.0) in s.pairs && e in s.edges && s.edges[e] == FreshEdge(LargerDirection(s.pairs, e))
  {
    hide PairTable, LargerDirection, Import, FreshEdge, ActiveEdges, EligibleEdges;
    var before, c := Replay(INITIAL, commands[..|commands| - 1]), commands[|commands| - 1];
    assert Replay(INITIAL, commands) == Step(before, c);
    assert Import(before.ledger, c.known, c.rec, c.policy).1.Imported?;
    AcceptedImport(before.ledger, c);
    ActiveIsStored(Replay(INITIAL, commands).ledger.edges);
  }

  lemma ActiveHasPairs(commands: seq<Command>, e: Pair)
    requires e in ActiveEdges(Replay(INITIAL, commands).ledger.edges)
    ensures var s := Replay(INITIAL, commands).ledger; e in s.pairs && (e.1, e.0) in s.pairs
  {
    ImportsKeepDerivedTables(commands);
    var s := Replay(INITIAL, commands);
    NothingActive(e);
    hide Replay, PairTable, EligibleEdges, ActiveEdges;
    EligibleHaveBothDirections(s.ledger.log, s.last.value);
  }

  /** Over every sequence of imports: the confidence and the evidence of an active edge are those of
      the larger direction of its pair in the pair table of its last activation. They are current
      exactly when that direction's row is the same in the present table. */
  lemma EvidenceIsOfLastActivation(commands: seq<Command>, e: Pair) returns (k: nat)
    requires e in ActiveEdges(Replay(INITIAL, commands).ledger.edges)
    ensures 0 < k <= |commands|
    ensures e !in ActiveEdges(Replay(INITIAL, commands[..k - 1]).ledger.edges)
    ensures forall m | k <= m <= |commands| :: e in ActiveEdges(Replay(INITIAL, commands[..m]).ledger.edges)
    ensures var first, now := Replay(INITIAL, commands[..k]).ledger, Replay(INITIAL, commands).ledger;
      && first.pairs == PairTable(first.log, commands[k - 1].policy.windowDays)
      && e in first.pairs && (e.1, e.0) in first.pairs && e in now.pairs && (e.1, e.0) in now.pairs && e in now.edges
      && now.edges[e] == FreshEdge(LargerDirection(first.pairs, e))
      && (now.edges[e] == FreshEdge(LargerDirection(now.pairs, e))
          <==> LargerDirection(first.pairs, e) == LargerDirection(now.pairs, e))
  {
    hide PairTable, LargerDirection, Import, Step, Replay, FreshEdge, ActiveEdges;
    k := LastActivation(commands, e);
    assert commands[..k][..k - 1] == commands[..k - 1] && commands[..|commands|] == commands;
    ActivationIsFresh(commands[..k], e);
    ActiveHasPairs(commands, e);
    StaysSince(commands, e, k);
    Fresh(Replay(INITIAL, commands).ledger.pairs, e);
  }

  // --- Boosts ---------------------------------------------------------------------------------------------

  function Rates(pairs: map<Pair, PairRow>, context: set<SkillId>, related: SkillId): set<int> {
    set p | p in pairs && p.0 in context && p.1 == related :: pairs[p].rate
  }

  function Scaled(rate: int, cap: real): real {
    (rate as real / UNIT as real) * cap
  }

  /** `get_co_usage_boosts` for one candidate; `None` when no context skill pairs with it. */
  function CoUsageBoost(pairs: map<Pair, PairRow>, context: set<SkillId>, related: SkillId, cap: real): Option<real> {
    var rates := Rates(pairs, context, related);
    if rates == {} then None
    else Some(Fusion.Min(cap, Fusion.MaxReal(0.0, Scaled(MaxOf(rates), cap))))
  }

  lemma ScaledRate(rate: int, cap: real)
    requires 0 <= rate <= UNIT && cap >= 0.0
    ensures 0.0 <= Scaled(rate, cap) <= cap
  {
    var share := rate as real / UNIT as real;
    assert 0.0 <= share <= 1.0;
    assert share * cap <= 1.0 * cap;
  }

  ghost predicate RatesInUnit(pairs: map<Pair, PairRow>) {
    forall p | p in pairs :: 0 <= pairs[p].rate <= UNIT
  }

  lemma DerivedRatesInUnit(log: set<Run>, days: nat)
    ensures RatesInUnit(PairTable(log, days))
  {
    if log != {} {
      forall p | p in PairsIn(Window(log, days)) ensures 0 <= RowFor(Window(log, days), p, days).rate <= UNIT {
        ScoresOfAPair(Window(log, days), p, days);
      }
    }
  }

  lemma BoostInBand(pairs: map<Pair, PairRow>, context: set<SkillId>, related: SkillId, cap: real)
    requires cap >= 0.0 && RatesInUnit(pairs) && Rates(pairs, context, related) != {}
    ensures var rates, boost := Rates(pairs, context, related), CoUsageBoost(pairs, context, related, cap);
      && boost == Some(Scaled(MaxOf(rates), cap))
      && 0.0 <= boost.value <= cap
      && Fusion.BoundedBoost(boost.value, cap) == boost.value
  {
    var top := MaxOf(Rates(pairs, context, related));
    assert top in Rates(pairs, context, related);
    ScaledRate(top, cap);
  }

  /** The boosts read from a derived pair table are plain products of a rate and the cap: they lie
      in [0, cap], so both clamps, the one in SQL and the one in the ranking code, do nothing. */
  lemma BoostsNeedNoClamp(s: State, context: set<SkillId>, related: SkillId, cap: real)
    requires Derived(s) && cap >= 0.0
    requires Rates(s.ledger.pairs, context, related) != {}
    ensures var rates := Rates(s.ledger.pairs, context, related);
      var boost := CoUsageBoost(s.ledger.pairs, context, related, cap);
      && boost == Some(Scaled(MaxOf(rates), cap))
      && 0.0 <= boost.value <= cap
      && Fusion.BoundedBoost(boost.value, cap) == boost.value
  {
    hide PairTable, EligibleEdges, ActiveEdges, Overflows, CoUsageBoost, Rates;
    assert RatesInUnit(s.ledger.pairs) by {
      if s.last.Some? { DerivedRatesInUnit(s.ledger.log, s.last.value.windowDays); }
    }
    BoostInBand(s.ledger.pairs, context, related, cap);
  }
}
