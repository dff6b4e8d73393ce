/** Fusion of the lexical page, the semantic page and co-usage boosts into one ranking. */
module Fusion {
  import opened Collections
  import opened GroupRanking
  import opened Orders
  import opened SearchRanking

  type Boosts = map<string, real>

  datatype Ranked = Ranked(
    candidate: Candidate,
    lexicalRank: Option<nat>,
    semanticRank: Option<nat>,
    boost: real)

  function Min(a: real, b: real): real { if b < a then b else a }
  function MaxReal(a: real, b: real): real { if a < b then b else a }

  function BoundedBoost(value: real, cap: real): real {
    Min(MaxReal(value, 0.0), cap)
  }

  function BoostOf(boosts: Boosts, slug: string): real {
    if slug in boosts then boosts[slug] else 0.0
  }

  /** Reciprocal-rank component of a one-based rank; an absent list contributes nothing. */
  function RankScore(rank: Option<nat>): real {
    match rank
    case None => 0.0
    case Some(n) => 1.0 / ((n + 60) as real)
  }

  function UnboostedScore(r: Ranked): real {
    RankScore(r.lexicalRank) + RankScore(r.semanticRank)
  }

  function Score(r: Ranked): real {
    UnboostedScore(r) + r.boost
  }

  /** The sort key, compared left to right. */
  predicate FusedBefore(x: Ranked, y: Ranked) {
    var a, b := x.candidate, y.candidate;
    if a.exactSlugMatch != b.exactSlugMatch then a.exactSlugMatch
    else if a.exactNameMatch != b.exactNameMatch then a.exactNameMatch
    else if Score(x) != Score(y) then Score(x) > Score(y)
    else if a.tagOverlapCount != b.tagOverlapCount then a.tagOverlapCount > b.tagOverlapCount
    else if a.usageCount != b.usageCount then a.usageCount > b.usageCount
    else if a.publishedAt != b.publishedAt then a.publishedAt > b.publishedAt
    else if a.sizeBytes != b.sizeBytes then a.sizeBytes < b.sizeBytes
    else if a.slug != b.slug then TextBefore(a.slug, b.slug)
    else a.versionFk > b.versionFk
  }

  lemma FusedBeforeIsStrictOrder()
    ensures StrictOrder(FusedBefore)
  {
    forall x, y, z | FusedBefore(x, y) && FusedBefore(y, z) ensures FusedBefore(x, z) {
      var a, b, c := x.candidate.slug, y.candidate.slug, z.candidate.slug;
      if a != b && b != c && TextBefore(a, b) && TextBefore(b, c) {
        TextBeforeTransitive(a, b, c);
        TextBeforeIsStrict(a);
      }
    }
  }

  function SlugOf(r: Ranked): string { r.candidate.slug }

  lemma FusedBeforeSeparates(rows: seq<Ranked>)
    requires DistinctKeys(SlugOf, rows)
    ensures Separates(FusedBefore, rows)
  {
    forall i, j | 0 <= i < j < |rows| ensures FusedBefore(rows[i], rows[j]) || FusedBefore(rows[j], rows[i]) {
      assert SlugOf(rows[i]) != SlugOf(rows[j]);
      TextBeforeSeparates(rows[i].candidate.slug, rows[j].candidate.slug);
    }
  }

  // --- What one slug contributes -----------------------------------------------------------

  function LastIndex(list: seq<Candidate>, slug: string): (r: Option<nat>)
    ensures r.Some? ==> r.value < |list| && list[r.value].slug == slug
    ensures r.None? <==> forall i | 0 <= i < |list| :: list[i].slug != slug
  {
    if list == [] then None
    else if list[|list| - 1].slug == slug then Some(|list| - 1)
    else LastIndex(list[..|list| - 1], slug)
  }

  function FirstIndex(list: seq<Candidate>, slug: string): (r: Option<nat>)
    ensures r.Some? ==> r.value < |list| && list[r.value].slug == slug
    ensures r.None? <==> forall i | 0 <= i < |list| :: list[i].slug != slug
  {
    if list == [] then None
    else
      var earlier := FirstIndex(list[..|list| - 1], slug);
      if earlier.Some? then earlier
      else if list[|list| - 1].slug == slug then Some(|list| - 1)
      else None
  }

  function OneBased(index: Option<nat>): Option<nat> {
    match index
    case None => None
    case Some(i) => Some(i + 1)
  }

  predicate Mentions(list: seq<Candidate>, slug: string) {
    exists i | 0 <= i < |list| :: list[i].slug == slug
  }

  /** The entry of one slug: a repeated lexical slug keeps its last row, a slug known only to the
      semantic list keeps its first row, and either way the last rank in each list counts. */
  function Entry(lexical: seq<Candidate>, semantic: seq<Candidate>, boosts: Boosts, cap: real,
      slug: string): (r: Ranked)
    requires Mentions(lexical, slug) || Mentions(semantic, slug)
    ensures SlugOf(r) == slug
  {
    var inLexical := LastIndex(lexical, slug);
    Ranked(
      if inLexical.Some? then lexical[inLexical.value] else semantic[FirstIndex(semantic, slug).value],
      OneBased(inLexical),
      OneBased(LastIndex(semantic, slug)),
      BoundedBoost(BoostOf(boosts, slug), cap))
  }

  function Slugs(list: seq<Candidate>): (r: seq<string>)
    ensures |r| == |list|
    ensures forall i | 0 <= i < |list| :: r[i] == list[i].slug
  {
    seq(|list|, i requires 0 <= i < |list| => list[i].slug)
  }

  /** Slugs in order of first appearance: the insertion order of the dictionary. */
  function SlugOrder(lexical: seq<Candidate>, semantic: seq<Candidate>): (r: seq<string>)
  {
    FirstPerKey((s: string) => s, Slugs(lexical) + Slugs(semantic))
  }

  lemma SlugOccurs(lexical: seq<Candidate>, semantic: seq<Candidate>, s: string)
    requires Mentions(lexical, s) || Mentions(semantic, s)
    ensures s in SlugOrder(lexical, semantic)
  {
    var key, all := (x: string) => x, Slugs(lexical) + Slugs(semantic);
    FirstPerKeyMembers(key, all);
    var i: nat;
    if Mentions(lexical, s) {
      i :| 0 <= i < |lexical| && lexical[i].slug == s;
    } else {
      var k :| 0 <= k < |semantic| && semantic[k].slug == s;
      i := k + |lexical|;
    }
    assert all[i] == s;
    var b := FirstOfKeyAt(key, all, i);
    assert FirstAt(key, all, b);
  }

  lemma SlugOrderMembers(lexical: seq<Candidate>, semantic: seq<Candidate>)
    ensures forall s :: s in SlugOrder(lexical, semantic) <==> Mentions(lexical, s) || Mentions(semantic, s)
    ensures forall i, j | 0 <= i < j < |SlugOrder(lexical, semantic)| ::
      SlugOrder(lexical, semantic)[i] != SlugOrder(lexical, semantic)[j]
  {
    var key, all := (s: string) => s, Slugs(lexical) + Slugs(semantic);
    FirstPerKeyMembers(key, all);
    var order := SlugOrder(lexical, semantic);
    forall s ensures s in order <==> Mentions(lexical, s) || Mentions(semantic, s) {
      if s in order {
        var i :| 0 <= i < |all| && all[i] == s;
        if i < |lexical| {
          assert lexical[i].slug == s;
        } else {
          assert semantic[i - |lexical|].slug == s;
        }
      } else if Mentions(lexical, s) || Mentions(semantic, s) {
        SlugOccurs(lexical, semantic, s);
      }
    }
    forall i, j | 0 <= i < j < |order| ensures order[i] != order[j] {
      assert key(order[i]) != key(order[j]);
    }
  }

  ghost predicate IsEntry(lexical: seq<Candidate>, semantic: seq<Candidate>, boosts: Boosts, cap: real, slug: string,
      r: Ranked) {
    (Mentions(lexical, slug) || Mentions(semantic, slug)) && r == Entry(lexical, semantic, boosts, cap, slug)
  }

  /** All entries, in dictionary order. */
  function Entries(lexical: seq<Candidate>, semantic: seq<Candidate>, boosts: Boosts, cap: real): (r: seq<Ranked>)
    ensures |r| == |SlugOrder(lexical, semantic)|
    ensures forall i | 0 <= i < |r| :: IsEntry(lexical, semantic, boosts, cap, SlugOrder(lexical, semantic)[i], r[i])
  {
    var order := SlugOrder(lexical, semantic);
    SlugOrderMembers(lexical, semantic);
    seq(|order|, i requires 0 <= i < |order| =>
      assert order[i] in order;
      Entry(lexical, semantic, boosts, cap, order[i]))
  }

  /** The complete fused ranking, before the limit. */
  function Ranking(lexical: seq<Candidate>, semantic: seq<Candidate>, boosts: Boosts, cap: real): seq<Ranked> {
    Sort(FusedBefore, Entries(lexical, semantic, boosts, cap))
  }

  function Candidates(ranked: seq<Ranked>): (r: seq<Candidate>)
    ensures |r| == |ranked|
    ensures forall i | 0 <= i < |r| :: r[i] == ranked[i].candidate
  {
    seq(|ranked|, i requires 0 <= i < |ranked| => ranked[i].candidate)
  }

  function Fuse(lexical: seq<Candidate>, semantic: seq<Candidate>, boosts: Boosts, limit: nat,
      cap: real): seq<Candidate> {
    Candidates(Take(Ranking(lexical, semantic, boosts, cap), limit))
  }

  // --- The two dictionary-filling loops ------------------------------------------------------

  lemma SlugOrderGrows(before: seq<string>, slug: string)
    ensures FirstPerKey((s: string) => s, before + [slug])
         == FirstPerKey((s: string) => s, before) + if slug in before then [] else [slug]
  {
    FirstPerKeyGrows((s: string) => s, before, slug);
  }

  ghost predicate Holds(ranked: map<string, Ranked>, lexical: seq<Candidate>, semantic: seq<Candidate>, boosts: Boosts,
      cap: real) {
    && (forall s :: s in ranked <==> Mentions(lexical, s) || Mentions(semantic, s))
    && (forall s | s in ranked :: ranked[s] == Entry(lexical, semantic, boosts, cap, s))
  }

  lemma MentionsGrows(list: seq<Candidate>, n: nat, s: string)
    requires n < |list|
    ensures Mentions(list[..n + 1], s) <==> Mentions(list[..n], s) || list[n].slug == s
  {
    if Mentions(list[..n + 1], s) && list[n].slug != s {
      var i :| 0 <= i < n + 1 && list[..n + 1][i].slug == s;
      assert list[..n][i].slug == s;
    }
    if Mentions(list[..n], s) {
      var i :| 0 <= i < n && list[..n][i].slug == s;
      assert list[..n + 1][i].slug == s;
    }
    if list[n].slug == s { assert list[..n + 1][n].slug == s; }
  }

  lemma EntryGrows(list: seq<Candidate>, n: nat, s: string)
    requires n < |list|
    ensures LastIndex(list[..n + 1], s) == if list[n].slug == s then Some(n) else LastIndex(list[..n], s)
    ensures FirstIndex(list[..n + 1], s) ==
      if FirstIndex(list[..n], s).Some? then FirstIndex(list[..n], s) else if list[n].slug == s then Some(n) else None
  {
    assert list[..n + 1][..n] == list[..n];
  }

  function LexicalEntry(c: Candidate, rank: nat, boosts: Boosts, cap: real): Ranked {
    Ranked(c, Some(rank), None, BoundedBoost(BoostOf(boosts, c.slug), cap))
  }

  function SemanticEntry(c: Candidate, rank: nat, boosts: Boosts, cap: real): Ranked {
    Ranked(c, None, Some(rank), BoundedBoost(BoostOf(boosts, c.slug), cap))
  }

  lemma LexicalStep(ranked: map<string, Ranked>, lexical: seq<Candidate>, i: nat, boosts: Boosts, cap: real)
    requires i < |lexical| && Holds(ranked, lexical[..i], [], boosts, cap)
    ensures Holds(ranked[lexical[i].slug := LexicalEntry(lexical[i], i + 1, boosts, cap)], lexical[..i + 1], [], boosts,
      cap)
  {
    var next := ranked[lexical[i].slug := LexicalEntry(lexical[i], i + 1, boosts, cap)];
    forall s ensures s in next <==> Mentions(lexical[..i + 1], s) || Mentions([], s) {
      MentionsGrows(lexical, i, s);
    }
    forall s | s in next ensures next[s] == Entry(lexical[..i + 1], [], boosts, cap, s) {
      EntryGrows(lexical, i, s);
    }
  }

  function WithSemantic(ranked: map<string, Ranked>, c: Candidate, rank: nat, boosts: Boosts,
      cap: real): map<string, Ranked> {
    if c.slug in ranked then ranked[c.slug := ranked[c.slug].(semanticRank := Some(rank))]
    else ranked[c.slug := SemanticEntry(c, rank, boosts, cap)]
  }

  lemma SemanticKeys(ranked: map<string, Ranked>, lexical: seq<Candidate>, semantic: seq<Candidate>, j: nat,
      boosts: Boosts, cap: real)
    requires j < |semantic| && Holds(ranked, lexical, semantic[..j], boosts, cap)
    ensures forall s ::
      s in WithSemantic(ranked, semantic[j], j + 1, boosts, cap)
      <==> Mentions(lexical, s) || Mentions(semantic[..j + 1], s)
  {
    hide Entry, Mentions, SemanticEntry;
    forall s ensures s in WithSemantic(ranked, semantic[j], j + 1, boosts, cap)
      <==> Mentions(lexical, s) || Mentions(semantic[..j + 1], s)
    {
      MentionsGrows(semantic, j, s);
    }
  }

  lemma EntryOfLongerList(lexical: seq<Candidate>, semantic: seq<Candidate>, j: nat, boosts: Boosts, cap: real,
      s: string)
    requires j < |semantic| && (Mentions(lexical, s) || Mentions(semantic[..j], s))
    ensures Mentions(semantic[..j], s) ==> Mentions(semantic[..j + 1], s)
    ensures Mentions(lexical, s) || Mentions(semantic[..j + 1], s)
    ensures var before := Entry(lexical, semantic[..j], boosts, cap, s);
      Entry(lexical, semantic[..j + 1], boosts, cap, s)
      == if s == semantic[j].slug then before.(semanticRank := Some(j + 1)) else before
  {
    MentionsGrows(semantic, j, s);
    EntryGrows(semantic, j, s);
    hide BoundedBoost, BoostOf;
    var first := FirstIndex(semantic[..j], s);
    if first.Some? {
      assert semantic[..j + 1][first.value] == semantic[..j][first.value];
    }
    hide FirstIndex, LastIndex;
  }

  lemma EntryOfNewSlug(lexical: seq<Candidate>, semantic: seq<Candidate>, j: nat, boosts: Boosts, cap: real)
    requires j < |semantic| && !Mentions(lexical, semantic[j].slug) && !Mentions(semantic[..j], semantic[j].slug)
    ensures Mentions(semantic[..j + 1], semantic[j].slug)
    ensures Entry(lexical, semantic[..j + 1], boosts, cap, semantic[j].slug)
      == SemanticEntry(semantic[j], j + 1, boosts, cap)
  {
    var s := semantic[j].slug;
    MentionsGrows(semantic, j, s);
    EntryGrows(semantic, j, s);
    assert LastIndex(lexical, s).None? && FirstIndex(semantic[..j], s).None?;
  }

  lemma SemanticStepEntry(ranked: map<string, Ranked>, lexical: seq<Candidate>, semantic: seq<Candidate>, j: nat,
      boosts: Boosts, cap: real, s: string)
    requires j < |semantic| && Holds(ranked, lexical, semantic[..j], boosts, cap)
    requires s in ranked || s == semantic[j].slug
    ensures Mentions(lexical, s) || Mentions(semantic[..j + 1], s)
    ensures Entry(lexical, semantic[..j + 1], boosts, cap, s) ==
      if s != semantic[j].slug then ranked[s]
      else if s in ranked then ranked[s].(semanticRank := Some(j + 1))
      else SemanticEntry(semantic[j], j + 1, boosts, cap)
  {
    hide Entry, Mentions, SemanticEntry;
    if s in ranked {
      EntryOfLongerList(lexical, semantic, j, boosts, cap, s);
    } else {
      EntryOfNewSlug(lexical, semantic, j, boosts, cap);
    }
  }

  lemma SemanticStep(ranked: map<string, Ranked>, lexical: seq<Candidate>, semantic: seq<Candidate>, j: nat,
      boosts: Boosts, cap: real)
    requires j < |semantic| && Holds(ranked, lexical, semantic[..j], boosts, cap)
    ensures Holds(WithSemantic(ranked, semantic[j], j + 1, boosts, cap), lexical, semantic[..j + 1], boosts, cap)
  {
    hide Entry, Mentions, SemanticEntry;
    var next := WithSemantic(ranked, semantic[j], j + 1, boosts, cap);
    SemanticKeys(ranked, lexical, semantic, j, boosts, cap);
    forall s | s in next ensures next[s] == Entry(lexical, semantic[..j + 1], boosts, cap, s) {
      SemanticStepEntry(ranked, lexical, semantic, j, boosts, cap, s);
    }
  }

  lemma OrderStep(before: seq<string>, list: seq<Candidate>, n: nat)
    requires n < |list|
    ensures FirstPerKey((s: string) => s, before + Slugs(list[..n + 1]))
         == FirstPerKey((s: string) => s, before + Slugs(list[..n]))
          + if list[n].slug in before + Slugs(list[..n]) then [] else [list[n].slug]
  {
    assert before + Slugs(list[..n + 1]) == (before + Slugs(list[..n])) + [list[n].slug];
    SlugOrderGrows(before + Slugs(list[..n]), list[n].slug);
  }

  /** The dictionary knows a slug exactly when one of the lists read so far mentions it. */
  lemma KnownSlugs(lexical: seq<Candidate>, semantic: seq<Candidate>, s: string)
    ensures s in Slugs(lexical) + Slugs(semantic) <==> Mentions(lexical, s) || Mentions(semantic, s)
  {
    assert forall i | 0 <= i < |lexical| :: Slugs(lexical)[i] == lexical[i].slug;
    assert forall i | 0 <= i < |semantic| :: Slugs(semantic)[i] == semantic[i].slug;
  }

  lemma SemanticOrderStep(ranked: map<string, Ranked>, lexical: seq<Candidate>, semantic: seq<Candidate>, j: nat,
      boosts: Boosts, cap: real)
    requires j < |semantic| && Holds(ranked, lexical, semantic[..j], boosts, cap)
    ensures SlugOrder(lexical, semantic[..j + 1])
         == SlugOrder(lexical, semantic[..j]) + if semantic[j].slug in ranked then [] else [semantic[j].slug]
  {
    KnownSlugs(lexical, semantic[..j], semantic[j].slug);
    OrderStep(Slugs(lexical), semantic, j);
  }

  lemma NothingRanked(boosts: Boosts, cap: real)
    ensures SlugOrder([], []) == [] && Holds(map[], [], [], boosts, cap)
  {
    assert Slugs([]) + Slugs([]) == [];
  }

  lemma LexicalOrderStep(ranked: map<string, Ranked>, lexical: seq<Candidate>, i: nat, boosts: Boosts, cap: real)
    requires i < |lexical| && Holds(ranked, lexical[..i], [], boosts, cap)
    ensures SlugOrder(lexical[..i + 1], []) == SlugOrder(lexical[..i], []) + if lexical[i].slug in ranked
      then [] else [lexical[i].slug]
  {
    KnownSlugs(lexical[..i], [], lexical[i].slug);
    OrderStep([], lexical, i);
    assert [] + Slugs(lexical[..i]) == Slugs(lexical[..i]) + Slugs([]);
    assert [] + Slugs(lexical[..i + 1]) == Slugs(lexical[..i + 1]) + Slugs([]);
  }

  /** First loop: every lexical row overwrites the entry of its slug. */
  method RankLexical(lexical: seq<Candidate>, boosts: Boosts, cap: real)
    returns (order: seq<string>, ranked: map<string, Ranked>)
    ensures order == SlugOrder(lexical, [])
    ensures Holds(ranked, lexical, [], boosts, cap)
  {
    ranked, order := map[], [];
    NothingRanked(boosts, cap);
    assert lexical[..0] == [];
    hide Holds, SlugOrder, LexicalEntry;
    var i := 0;
    while i < |lexical|
      invariant 0 <= i <= |lexical|
      invariant order == SlugOrder(lexical[..i], [])
      invariant Holds(ranked, lexical[..i], [], boosts, cap)
    {
      var candidate := lexical[i];
      LexicalStep(ranked, lexical, i, boosts, cap);
      LexicalOrderStep(ranked, lexical, i, boosts, cap);
      if candidate.slug !in ranked {
        order := order + [candidate.slug];
      }
      ranked := ranked[candidate.slug := LexicalEntry(candidate, i + 1, boosts, cap)];
      i := i + 1;
    }
    assert lexical[..i] == lexical;
  }

  /** Second loop: a known slug only gains a semantic rank, an unknown one is added. */
  method RankSemantic(
    lexical: seq<Candidate>, semantic: seq<Candidate>, boosts: Boosts, cap: real,
    order0: seq<string>, ranked0: map<string, Ranked>
  ) returns (order: seq<string>, ranked: map<string, Ranked>)
    requires order0 == SlugOrder(lexical, [])
    requires Holds(ranked0, lexical, [], boosts, cap)
    ensures order == SlugOrder(lexical, semantic)
    ensures Holds(ranked, lexical, semantic, boosts, cap)
  {
    hide Holds, SlugOrder, WithSemantic, Mentions;
    order, ranked := order0, ranked0;
    var j := 0;
    assert semantic[..0] == [];
    while j < |semantic|
      invariant 0 <= j <= |semantic|
      invariant order == SlugOrder(lexical, semantic[..j])
      invariant Holds(ranked, lexical, semantic[..j], boosts, cap)
    {
      var candidate := semantic[j];
      SemanticStep(ranked, lexical, semantic, j, boosts, cap);
      SemanticOrderStep(ranked, lexical, semantic, j, boosts, cap);
      order := order + if candidate.slug in ranked then [] else [candidate.slug];
      ranked := WithSemantic(ranked, candidate, j + 1, boosts, cap);
      j := j + 1;
    }
    assert semantic[..j] == semantic;
  }

  method FuseDiscoveryCandidates(
    lexical: seq<Candidate>, semantic: seq<Candidate>, boosts: Boosts, limit: nat, cap: real
  ) returns (fused: seq<Candidate>)
    ensures fused == Fuse(lexical, semantic, boosts, limit, cap)
  {
    var order, ranked := RankLexical(lexical, boosts, cap);
    order, ranked := RankSemantic(lexical, semantic, boosts, cap, order, ranked);
    SlugOrderMembers(lexical, semantic);
    var values := seq(|order|, k requires 0 <= k < |order| => assert order[k] in order; ranked[order[k]]);
    assert values == Entries(lexical, semantic, boosts, cap);
    fused := Candidates(Take(Sort(FusedBefore, values), limit));
  }
}
