/** What fusion may and may not do to a ranking. */
module FusionLaws {
  import opened Collections
  import opened Fusion
  import opened GroupRanking
  import opened Orders
  import opened SearchRanking

  ghost predicate EntryOf(r: Ranked, lexical: seq<Candidate>, semantic: seq<Candidate>, boosts: Boosts, cap: real) {
    IsEntry(lexical, semantic, boosts, cap, SlugOf(r), r)
  }

  /** The ranking is the one sorted arrangement of one entry per mentioned slug. */
  lemma RankingIsSortedUnion(lexical: seq<Candidate>, semantic: seq<Candidate>, boosts: Boosts, cap: real)
    ensures var ranking := Ranking(lexical, semantic, boosts, cap);
      && Sorted(FusedBefore, ranking)
      && DistinctKeys(SlugOf, ranking)
      && (forall r :: r in ranking <==> EntryOf(r, lexical, semantic, boosts, cap))
  {
    var entries, ranking := Entries(lexical, semantic, boosts, cap), Ranking(lexical, semantic, boosts, cap);
    var order := SlugOrder(lexical, semantic);
    SlugOrderMembers(lexical, semantic);
    assert forall i | 0 <= i < |order| :: order[i] in order && SlugOf(entries[i]) == order[i];
    forall r ensures r in entries <==> EntryOf(r, lexical, semantic, boosts, cap) {
      if EntryOf(r, lexical, semantic, boosts, cap) {
        assert SlugOf(r) in order;
        var i :| 0 <= i < |order| && order[i] == SlugOf(r);
        assert entries[i] == r;
      }
    }
    FusedBeforeIsStrictOrder();
    FusedBeforeSeparates(entries);
    SortSorts(FusedBefore, entries);
    SortKeepsElements(FusedBefore, entries);
    assert forall r :: r in entries <==> r in Elements(entries);
    assert forall r :: r in ranking <==> r in Elements(ranking);
    forall i, j | 0 <= i < j < |ranking| ensures SlugOf(ranking[i]) != SlugOf(ranking[j]) {
      assert ranking[i] in ranking && ranking[j] in ranking;
      assert FusedBefore(ranking[i], ranking[j]);
    }
  }

  lemma SameMembers<T>(s: seq<T>, t: seq<T>)
    requires forall x :: x in s <==> x in t
    ensures Elements(s) == Elements(t)
  {
  }

  /** The fused page does not depend on the order in which the dictionary lists its values. */
  lemma FusionIgnoresDictionaryOrder(lexical: seq<Candidate>, semantic: seq<Candidate>, boosts: Boosts, cap: real,
      values: seq<Ranked>)
    requires DistinctKeys(SlugOf, values)
    requires forall r :: r in values <==> EntryOf(r, lexical, semantic, boosts, cap)
    ensures Sort(FusedBefore, values) == Ranking(lexical, semantic, boosts, cap)
  {
    RankingIsSortedUnion(lexical, semantic, boosts, cap);
    var ranking := Ranking(lexical, semantic, boosts, cap);
    FusedBeforeIsStrictOrder();
    FusedBeforeSeparates(values);
    SortSorts(FusedBefore, values);
    SortKeepsElements(FusedBefore, values);
    SameMembers(values, ranking);
    SortedIsUnique(FusedBefore, Sort(FusedBefore, values), ranking);
  }

  /** A fused page holds at most `limit` rows, one per slug, all of them rows of the two lists,
      and no row follows a row with a weaker exact-slug flag. */
  lemma FusedPageShape(lexical: seq<Candidate>, semantic: seq<Candidate>, boosts: Boosts, limit: nat, cap: real)
    ensures var page := Fuse(lexical, semantic, boosts, limit, cap);
      && |page| <= limit
      && (forall i, j | 0 <= i < j < |page| :: page[i].slug != page[j].slug)
      && (forall i, j | 0 <= i < j < |page| && page[j].exactSlugMatch :: page[i].exactSlugMatch)
      && (forall c | c in page :: c in lexical || c in semantic)
  {
    RankingIsSortedUnion(lexical, semantic, boosts, cap);
    var ranking := Ranking(lexical, semantic, boosts, cap);
    var page := Fuse(lexical, semantic, boosts, limit, cap);
    forall i, j | 0 <= i < j < |page|
      ensures page[i].slug != page[j].slug
      ensures page[j].exactSlugMatch ==> page[i].exactSlugMatch
    {
      assert SlugOf(ranking[i]) != SlugOf(ranking[j]);
      assert FusedBefore(ranking[i], ranking[j]);
    }
    forall c | c in page ensures c in lexical || c in semantic {
      var i :| 0 <= i < |page| && page[i] == c;
      assert ranking[i] in ranking;
    }
  }

  lemma {:induction false} FirstPerKeyNoLonger<T, K>(key: T -> K, rows: seq<T>)
    ensures |FirstPerKey(key, rows)| <= |rows|
  {
    if rows != [] { FirstPerKeyNoLonger(key, rows[..|rows| - 1]); }
  }

  /** No slug is lost before the cut: with room for everybody, every mentioned slug is returned. */
  lemma NothingLostBeforeTheCut(lexical: seq<Candidate>, semantic: seq<Candidate>, boosts: Boosts, limit: nat,
      cap: real, slug: string)
    requires Mentions(lexical, slug) || Mentions(semantic, slug)
    requires |lexical| + |semantic| <= limit
    ensures exists c | c in Fuse(lexical, semantic, boosts, limit, cap) :: c.slug == slug
  {
    RankingIsSortedUnion(lexical, semantic, boosts, cap);
    var ranking := Ranking(lexical, semantic, boosts, cap);
    var r := Entry(lexical, semantic, boosts, cap, slug);
    assert EntryOf(r, lexical, semantic, boosts, cap);
    assert r in ranking;
    FirstPerKeyNoLonger((s: string) => s, Slugs(lexical) + Slugs(semantic));
    assert |ranking| <= limit;
    var i :| 0 <= i < |ranking| && ranking[i] == r;
    assert Fuse(lexical, semantic, boosts, limit, cap)[i].slug == slug;
  }

  // --- Boosts --------------------------------------------------------------------------------

  lemma BoostStaysInBand(value: real, cap: real)
    ensures Min(0.0, cap) <= BoundedBoost(value, cap) <= cap
    ensures cap >= 0.0 ==> 0.0 <= BoundedBoost(value, cap)
  {
  }

  /** Boosts cannot reverse two rows with equal exact flags whose unboosted scores differ by
      more than the cap. */
  lemma BoostsCannotReverse(lexical: seq<Candidate>, semantic: seq<Candidate>, boosts: Boosts, cap: real, i: nat,
      j: nat)
    requires cap >= 0.0
    requires i < |Ranking(lexical, semantic, boosts, cap)| && j < |Ranking(lexical, semantic, boosts, cap)|
    requires var a, b := Ranking(lexical, semantic, boosts, cap)[i], Ranking(lexical, semantic, boosts, cap)[j];
      && a.candidate.exactSlugMatch == b.candidate.exactSlugMatch
      && a.candidate.exactNameMatch == b.candidate.exactNameMatch
      && UnboostedScore(a) - UnboostedScore(b) > cap
    ensures i < j
  {
    RankingIsSortedUnion(lexical, semantic, boosts, cap);
    var ranking := Ranking(lexical, semantic, boosts, cap);
    var a, b := ranking[i], ranking[j];
    assert a in ranking && b in ranking;
    BoostStaysInBand(BoostOf(boosts, SlugOf(a)), cap);
    BoostStaysInBand(BoostOf(boosts, SlugOf(b)), cap);
    assert FusedBefore(a, b);
    FusedBeforeIsStrictOrder();
    PositionsFollowOrder(FusedBefore, ranking, i, j);
  }

  ghost predicate RaisesOnly(boosts: Boosts, raised: Boosts, slug: string) {
    && BoostOf(raised, slug) >= BoostOf(boosts, slug)
    && forall s | s != slug :: BoostOf(raised, s) == BoostOf(boosts, s)
  }

  /** The slugs that come before position `i`. */
  ghost function Ahead(ranking: seq<Ranked>, i: nat): set<string>
    requires i < |ranking|
  {
    set k | 0 <= k < i :: SlugOf(ranking[k])
  }

  lemma {:induction false} AheadCounts(ranking: seq<Ranked>, i: nat)
    requires i < |ranking| && DistinctKeys(SlugOf, ranking)
    ensures |Ahead(ranking, i)| == i
  {
    if i > 0 {
      AheadCounts(ranking, i - 1);
      assert Ahead(ranking, i) == Ahead(ranking, i - 1) + {SlugOf(ranking[i - 1])};
      assert SlugOf(ranking[i - 1]) !in Ahead(ranking, i - 1);
    }
  }

  lemma StillAhead(a: Ranked, boosted: Ranked, plain: Ranked)
    requires FusedBefore(a, boosted) && boosted == plain.(boost := boosted.boost) && boosted.boost >= plain.boost
    ensures FusedBefore(a, plain)
  {
  }

  /** Raising the boost of one slug never moves that slug later in the ranking. */
  lemma RaisingABoostNeverDemotes(
    lexical: seq<Candidate>, semantic: seq<Candidate>, boosts: Boosts, raised: Boosts, cap: real, slug: string, i: nat,
    j: nat)
    requires RaisesOnly(boosts, raised, slug)
    requires i < |Ranking(lexical, semantic, boosts, cap)| && SlugOf(Ranking(lexical, semantic, boosts, cap)[i]) == slug
    requires j < |Ranking(lexical, semantic, raised, cap)| && SlugOf(Ranking(lexical, semantic, raised, cap)[j]) == slug
    ensures j <= i
  {
    RankingIsSortedUnion(lexical, semantic, boosts, cap);
    RankingIsSortedUnion(lexical, semantic, raised, cap);
    var plain, lifted := Ranking(lexical, semantic, boosts, cap), Ranking(lexical, semantic, raised, cap);
    assert plain[i] in plain && lifted[j] in lifted;
    forall s | s in Ahead(lifted, j) ensures s in Ahead(plain, i) {
      var k :| 0 <= k < j && SlugOf(lifted[k]) == s;
      assert lifted[k] in lifted && FusedBefore(lifted[k], lifted[j]);
      assert SlugOf(lifted[k]) != SlugOf(lifted[j]);
      var r := Entry(lexical, semantic, boosts, cap, s);
      assert EntryOf(r, lexical, semantic, boosts, cap);
      assert r == lifted[k];
      assert r in plain;
      var p :| 0 <= p < |plain| && plain[p] == r;
      StillAhead(lifted[k], lifted[j], plain[i]);
      FusedBeforeIsStrictOrder();
      PositionsFollowOrder(FusedBefore, plain, p, i);
    }
    AheadCounts(lifted, j);
    AheadCounts(plain, i);
    SubsetSize(Ahead(lifted, j), Ahead(plain, i));
  }

  // --- Fusion is conservative -----------------------------------------------------------------

  ghost predicate LexicalPage(lexical: seq<Candidate>) {
    Sorted(Before, lexical) && forall i, j | 0 <= i < j < |lexical| :: lexical[i].slug != lexical[j].slug
  }

  lemma RankScoreFalls(m: nat, n: nat)
    requires m < n
    ensures RankScore(Some(m)) > RankScore(Some(n))
  {
    var a, b := (m + 60) as real, (n + 60) as real;
    assert 0.0 < a < b;
    assert 1.0 / a > 1.0 / b by {
      assert (1.0 / a) * a == 1.0 && (1.0 / b) * b == 1.0;
      assert (1.0 / b) * a < (1.0 / b) * b;
    }
  }

  lemma LexicalOnlyEntry(lexical: seq<Candidate>, semantic: seq<Candidate>, boosts: Boosts, cap: real, i: nat)
    requires LexicalPage(lexical) && i < |lexical| && !Mentions(semantic, lexical[i].slug)
    ensures Mentions(lexical, lexical[i].slug)
    ensures Entry(lexical, semantic, boosts, cap, lexical[i].slug)
         == LexicalEntry(lexical[i], i + 1, boosts, cap)
  {
    var at := LastIndex(lexical, lexical[i].slug);
    assert at == Some(i);
    assert LastIndex(semantic, lexical[i].slug).None?;
  }

  lemma LexicalEntriesInOrder(a: Candidate, b: Candidate, m: nat, n: nat, boosts: Boosts, cap: real)
    requires Before(a, b) && m < n && cap >= 0.0 && BoostOf(boosts, a.slug) <= 0.0 && BoostOf(boosts, b.slug) <= 0.0
    ensures FusedBefore(LexicalEntry(a, m, boosts, cap), LexicalEntry(b, n, boosts, cap))
  {
    hide TextBefore, RankScore;
    RankScoreFalls(m, n);
  }

  lemma LexicalOnlyAt(lexical: seq<Candidate>, semantic: seq<Candidate>, boosts: Boosts, cap: real, i: nat, x: nat)
    requires LexicalPage(lexical) && i < |lexical| && !Mentions(semantic, lexical[i].slug)
    requires x < |Ranking(lexical, semantic, boosts, cap)|
      && Ranking(lexical, semantic, boosts, cap)[x].candidate.slug == lexical[i].slug
    ensures Ranking(lexical, semantic, boosts, cap)[x] == LexicalEntry(lexical[i], i + 1, boosts, cap)
  {
    hide Ranking, FusedBefore, Before, BoundedBoost, Mentions;
    RankingIsSortedUnion(lexical, semantic, boosts, cap);
    var r := Ranking(lexical, semantic, boosts, cap)[x];
    assert r in Ranking(lexical, semantic, boosts, cap);
    LexicalOnlyEntry(lexical, semantic, boosts, cap, i);
  }

  /** Two rows that only the lexical page knows and that have no boost keep their order,
      whatever the semantic list and the other boosts are. */
  lemma LexicalOrderIsKept(lexical: seq<Candidate>, semantic: seq<Candidate>, boosts: Boosts, cap: real, i: nat, j: nat,
      x: nat, y: nat)
    requires LexicalPage(lexical) && cap >= 0.0
    requires i < j < |lexical|
    requires forall k | k == i || k == j ::
      !Mentions(semantic, lexical[k].slug) && BoostOf(boosts, lexical[k].slug) <= 0.0
    requires x < |Ranking(lexical, semantic, boosts, cap)|
      && Ranking(lexical, semantic, boosts, cap)[x].candidate.slug == lexical[i].slug
    requires y < |Ranking(lexical, semantic, boosts, cap)|
      && Ranking(lexical, semantic, boosts, cap)[y].candidate.slug == lexical[j].slug
    ensures x < y
    ensures Ranking(lexical, semantic, boosts, cap)[x].candidate == lexical[i]
    ensures Ranking(lexical, semantic, boosts, cap)[y].candidate == lexical[j]
  {
    hide Ranking, FusedBefore, Before, BoundedBoost, Mentions;
    LexicalOnlyAt(lexical, semantic, boosts, cap, i, x);
    LexicalOnlyAt(lexical, semantic, boosts, cap, j, y);
    LexicalEntriesInOrder(lexical[i], lexical[j], i + 1, j + 1, boosts, cap);
    RankingIsSortedUnion(lexical, semantic, boosts, cap);
    FusedBeforeIsStrictOrder();
    PositionsFollowOrder(FusedBefore, Ranking(lexical, semantic, boosts, cap), x, y);
  }

  function LexicalEntries(lexical: seq<Candidate>, boosts: Boosts, cap: real): (r: seq<Ranked>)
    ensures |r| == |lexical|
    ensures forall i | 0 <= i < |r| :: r[i] == LexicalEntry(lexical[i], i + 1, boosts, cap)
  {
    seq(|lexical|, i requires 0 <= i < |lexical| => LexicalEntry(lexical[i], i + 1, boosts, cap))
  }

  lemma LexicalEntriesSorted(lexical: seq<Candidate>, boosts: Boosts, cap: real)
    requires LexicalPage(lexical) && cap >= 0.0
    requires forall c | c in lexical :: BoostOf(boosts, c.slug) <= 0.0
    ensures Sorted(FusedBefore, LexicalEntries(lexical, boosts, cap))
  {
    var entries := LexicalEntries(lexical, boosts, cap);
    forall i, j | 0 <= i < j < |entries| ensures FusedBefore(entries[i], entries[j]) {
      assert lexical[i] in lexical && lexical[j] in lexical;
      LexicalEntriesInOrder(lexical[i], lexical[j], i + 1, j + 1, boosts, cap);
    }
  }

  lemma LexicalEntriesAreAll(lexical: seq<Candidate>, boosts: Boosts, cap: real)
    requires LexicalPage(lexical)
    ensures forall r :: r in LexicalEntries(lexical, boosts, cap) <==> EntryOf(r, lexical, [], boosts, cap)
  {
    var entries := LexicalEntries(lexical, boosts, cap);
    forall r ensures r in entries <==> EntryOf(r, lexical, [], boosts, cap) {
      if EntryOf(r, lexical, [], boosts, cap) {
        var i :| 0 <= i < |lexical| && lexical[i].slug == SlugOf(r);
        LexicalOnlyEntry(lexical, [], boosts, cap, i);
        assert entries[i] == r;
      }
      if r in entries {
        var i :| 0 <= i < |entries| && entries[i] == r;
        LexicalOnlyEntry(lexical, [], boosts, cap, i);
      }
    }
  }

  /** Without semantic rows and boosts, fusion hands the lexical page back unchanged. */
  lemma FusionOfLexicalAlone(lexical: seq<Candidate>, boosts: Boosts, limit: nat, cap: real)
    requires LexicalPage(lexical) && cap >= 0.0
    requires forall c | c in lexical :: BoostOf(boosts, c.slug) <= 0.0
    ensures Fuse(lexical, [], boosts, limit, cap) == Take(lexical, limit)
  {
    LexicalEntriesSorted(lexical, boosts, cap);
    LexicalEntriesAreAll(lexical, boosts, cap);
    RankingIsSortedUnion(lexical, [], boosts, cap);
    var ranking, entries := Ranking(lexical, [], boosts, cap), LexicalEntries(lexical, boosts, cap);
    SameMembers(ranking, entries);
    FusedBeforeIsStrictOrder();
    SortedIsUnique(FusedBefore, ranking, entries);
  }

  // --- Who makes the cut ----------------------------------------------------------------------

  ghost predicate Precedes(lexical: seq<Candidate>, semantic: seq<Candidate>, boosts: Boosts, cap: real, s: string,
      slug: string)
    requires Mentions(lexical, slug) || Mentions(semantic, slug)
  {
    && (Mentions(lexical, s) || Mentions(semantic, s))
    && FusedBefore(Entry(lexical, semantic, boosts, cap, s), Entry(lexical, semantic, boosts, cap, slug))
  }

  /** The slugs whose entry comes before that of `slug`. */
  ghost function EntriesAhead(lexical: seq<Candidate>, semantic: seq<Candidate>, boosts: Boosts, cap: real,
      slug: string): set<string>
    requires Mentions(lexical, slug) || Mentions(semantic, slug)
  {
    set s | s in SlugOrder(lexical, semantic) && Precedes(lexical, semantic, boosts, cap, s, slug)
  }

  lemma EntriesAheadCount(lexical: seq<Candidate>, semantic: seq<Candidate>, boosts: Boosts, cap: real, slug: string,
      ahead: set<Ranked>)
    requires Mentions(lexical, slug) || Mentions(semantic, slug)
    requires forall r :: r in ahead <==>
      EntryOf(r, lexical, semantic, boosts, cap) && FusedBefore(r, Entry(lexical, semantic, boosts, cap, slug))
    ensures |EntriesAhead(lexical, semantic, boosts, cap, slug)| == |ahead|
  {
    hide Entry, FusedBefore, Mentions, SlugOrder;
    SlugOrderMembers(lexical, semantic);
    InjectiveImageSize(SlugOf, ahead);
    forall s | s in EntriesAhead(lexical, semantic, boosts, cap, slug) ensures s in ImageOf(SlugOf, ahead) {
      assert EntryOf(Entry(lexical, semantic, boosts, cap, s), lexical, semantic, boosts, cap);
      assert Entry(lexical, semantic, boosts, cap, s) in ahead;
    }
    assert ImageOf(SlugOf, ahead) == EntriesAhead(lexical, semantic, boosts, cap, slug);
  }

  /** A mentioned slug is on the fused page exactly when fewer entries than the limit come before
      its own, and then it shows the row of its entry. */
  lemma EntryIsOnTheFusedPageIff(
    lexical: seq<Candidate>, semantic: seq<Candidate>, boosts: Boosts, limit: nat, cap: real, c: Candidate)
    ensures c in Fuse(lexical, semantic, boosts, limit, cap) <==>
      && (Mentions(lexical, c.slug) || Mentions(semantic, c.slug))
      && c == Entry(lexical, semantic, boosts, cap, c.slug).candidate
      && |EntriesAhead(lexical, semantic, boosts, cap, c.slug)| < limit
  {
    hide Entry, Mentions, FusedBefore, EntriesAhead, Ranking;
    RankingIsSortedUnion(lexical, semantic, boosts, cap);
    var ranking, page := Ranking(lexical, semantic, boosts, cap), Fuse(lexical, semantic, boosts, limit, cap);
    var kept := Take(ranking, limit);
    if c in page {
      var i :| 0 <= i < |page| && page[i] == c;
      assert kept[i] in kept && ranking[i] in ranking && EntryOf(ranking[i], lexical, semantic, boosts, cap);
      assert kept[i] == ranking[i] == Entry(lexical, semantic, boosts, cap, c.slug);
    }
    if Mentions(lexical, c.slug) || Mentions(semantic, c.slug) {
      var r := Entry(lexical, semantic, boosts, cap, c.slug);
      assert EntryOf(r, lexical, semantic, boosts, cap);
      FusedBeforeIsStrictOrder();
      InTakeIff(FusedBefore, ranking, limit, r);
      EntriesAheadCount(lexical, semantic, boosts, cap, c.slug, Preceding(FusedBefore, ranking, r));
      if r in kept && c == r.candidate {
        var i :| 0 <= i < |kept| && kept[i] == r;
        assert page[i] == c;
      }
    }
  }
}
