/** The order of search pages, key by key: what the ranking and the fusion promise about any two rows,
    without naming their comparison functions. */
module SearchOrder {
  import opened Collections
  import opened Fusion
  import opened FusionLaws
  import opened GroupRanking
  import opened Orders
  import opened SearchRanking
  import Governance
  import LikePattern

  // --- Text -----------------------------------------------------------------------------------------

  /** a and b agree before k, where a ends or has the smaller character. */
  ghost predicate PrecedesAt(a: string, b: string, k: nat) {
    k <= |a| && k < |b| && a[..k] == b[..k] && (k == |a| || a[k] < b[k])
  }

  /** Order by code point: at their first difference, a proper prefix before the longer text. */
  ghost predicate Precedent(a: string, b: string) {
    exists k: nat :: PrecedesAt(a, b, k)
  }

  lemma FirstCharacters(a: string, b: string, k: nat)
    requires PrecedesAt(a, b, k) && k > 0
    ensures a != [] && b != [] && a[0] == b[0] && PrecedesAt(a[1..], b[1..], k - 1)
  {
    assert a[..k][0] == a[0] && b[..k][0] == b[0];
    assert a[1..][..k - 1] == a[..k][1..] && b[1..][..k - 1] == b[..k][1..];
  }

  lemma OneCharacterEarlier(a: string, b: string, k: nat)
    requires a != [] && b != [] && a[0] == b[0] && PrecedesAt(a[1..], b[1..], k)
    ensures PrecedesAt(a, b, k + 1)
  {
    assert a[..k + 1] == [a[0]] + a[1..][..k] && b[..k + 1] == [b[0]] + b[1..][..k];
  }

  lemma {:induction false} TextBeforeIff(a: string, b: string)
    ensures TextBefore(a, b) <==> Precedent(a, b)
  {
    forall k: nat | k > 0 && PrecedesAt(a, b, k)
      ensures a != [] && b != [] && a[0] == b[0] && PrecedesAt(a[1..], b[1..], k - 1)
    {
      FirstCharacters(a, b, k);
    }
    if a != [] && b != [] && a[0] == b[0] {
      TextBeforeIff(a[1..], b[1..]);
      if k: nat :| PrecedesAt(a[1..], b[1..], k) {
        OneCharacterEarlier(a, b, k);
      }
    } else {
      assert PrecedesAt(a, b, 0) <==> TextBefore(a, b);
    }
  }

  // --- The lexical page -----------------------------------------------------------------------------

  /** Equal in the first keys that decide before the text score. */
  predicate SameExactness(a: Candidate, b: Candidate) {
    a.exactSlugMatch == b.exactSlugMatch && a.exactNameMatch == b.exactNameMatch
  }

  predicate SamePopularity(a: Candidate, b: Candidate) {
    a.tagOverlapCount == b.tagOverlapCount && a.usageCount == b.usageCount
  }

  predicate SameRelease(a: Candidate, b: Candidate) {
    a.publishedAt == b.publishedAt && a.sizeBytes == b.sizeBytes
  }

  /** What the keys after the score promise about a row and a later one with an equal score. */
  ghost predicate TieBroken(a: Candidate, b: Candidate) {
    && a.tagOverlapCount >= b.tagOverlapCount
    && (a.tagOverlapCount == b.tagOverlapCount ==> a.usageCount >= b.usageCount)
    && (SamePopularity(a, b) ==> a.publishedAt >= b.publishedAt)
    && (SamePopularity(a, b) && a.publishedAt == b.publishedAt ==> a.sizeBytes <= b.sizeBytes)
    && (SamePopularity(a, b) && SameRelease(a, b) ==>
          (a.slug == b.slug && a.versionFk > b.versionFk) || Precedent(a.slug, b.slug))
  }

  /** What the exact-match keys promise about a row and a later one. */
  predicate ExactFirst(a: Candidate, b: Candidate) {
    && (b.exactSlugMatch ==> a.exactSlugMatch)
    && (a.exactSlugMatch == b.exactSlugMatch && b.exactNameMatch ==> a.exactNameMatch)
  }

  /** a may stand before b on a lexical page: exact matches first, then the more relevant, then by tags,
      installs, date, size, slug and version id. */
  ghost predicate Outranks(a: Candidate, b: Candidate) {
    && ExactFirst(a, b)
    && (SameExactness(a, b) ==> a.lexicalScore >= b.lexicalScore)
    && (SameExactness(a, b) && a.lexicalScore == b.lexicalScore ==> TieBroken(a, b))
  }

  lemma BeforeOutranks(a: Candidate, b: Candidate)
    ensures Before(a, b) <==> Outranks(a, b)
  {
    TextBeforeIff(a.slug, b.slug);
    TextBeforeIsStrict(a.slug);
    hide TextBefore, Precedent;
  }

  ghost predicate Found(d: Document, r: Request) {
    || (r.identityText.None? && r.fullText.None?)
    || (r.fullText.Some? && d.textHit)
    || (r.identityText.Some? && exists at :: LikePattern.Occurs(r.identityText.value, d.normalizedSlug, at))
    || (r.identityText.Some? && exists at :: LikePattern.Occurs(r.identityText.value, d.normalizedName, at))
  }

  /** A document that a request asks for: the text is found, the tags are there or the text is the slug or
      name itself, and every filter admits it. */
  ghost predicate Wanted(d: Document, r: Request) {
    && Found(d, r)
    && ((forall t | t in r.requiredTags :: t in d.normalizedTags)
        || (r.identityText.Some?
           && (r.identityText.value == d.normalizedSlug || r.identityText.value == d.normalizedName)))
    && (r.publishedAfter.Some? ==> r.publishedAfter.value <= d.publishedAt)
    && (r.maxSizeBytes.Some? ==> d.sizeBytes <= r.maxSizeBytes.value)
    && d.attributes.lifecycle in r.lifecycles && d.attributes.trustTier in r.trustTiers
    && (r.filters.namespaces.Some? ==> d.attributes.namespace in r.filters.namespaces.value)
    && (r.filters.channels.Some? ==> d.attributes.channel in r.filters.channels.value)
    && d.attributes.reviewState in r.filters.reviewStates
  }

  lemma FoundIff(d: Document, r: Request)
    ensures TextClause(d, r) <==> Found(d, r)
  {
    if r.identityText.Some? {
      TextClauseMeansOccurs(d, r);
    }
  }

  lemma SelectedIff(d: Document, r: Request)
    ensures Selected(d, r) <==> Wanted(d, r)
  {
    FoundIff(d, r);
    hide TextClause, Found;
  }

  /** The row of a document in the answer. */
  ghost predicate RowOf(c: Candidate, d: Document, r: Request) {
    && c.versionFk == d.versionFk && c.slug == d.slug && c.version == d.version && c.attributes == d.attributes
    && c.publishedAt == d.publishedAt && c.sizeBytes == d.sizeBytes && c.usageCount == d.installCount
    && (c.exactSlugMatch <==> r.identityText.Some? && r.identityText.value == d.normalizedSlug)
    && (c.exactNameMatch <==> r.identityText.Some? && r.identityText.value == d.normalizedName)
    && c.lexicalScore == (if r.fullText.Some? then d.textScore else 0.0)
    && c.tagOverlapCount == |set t | t in d.normalizedTags && t in r.requiredTags|
  }

  lemma ProjectIsRow(d: Document, r: Request)
    ensures RowOf(Project(d, r), d, r)
  {
    assert (set t | t in d.normalizedTags && t in r.requiredTags) == d.normalizedTags * r.requiredTags;
  }

  lemma RowIsUnique(a: Candidate, b: Candidate, d: Document, r: Request)
    requires RowOf(b, d, r)
    ensures RowOf(a, d, r) <==> a == b
  {
  }

  lemma FilteredIff(docs: seq<Document>, r: Request, c: Candidate)
    requires KeyedDocuments(docs)
    ensures c in Filtered(docs, r) <==> exists d | d in docs :: Wanted(d, r) && RowOf(c, d, r)
  {
    FilteredVersions(docs, r);
    hide Filtered, Selected, Wanted, Project, RowOf;
    forall d ensures Selected(d, r) <==> Wanted(d, r) {
      SelectedIff(d, r);
    }
    forall d ensures RowOf(c, d, r) <==> c == Project(d, r) {
      ProjectIsRow(d, r);
      RowIsUnique(c, Project(d, r), d, r);
    }
  }

  lemma OtherRowIsOutranked(docs: seq<Document>, r: Request, o: Candidate)
    requires KeyedDocuments(docs) && o in Filtered(docs, r)
    ensures var page := SearchCandidates(docs, r);
      && (forall c | c in page && c.slug == o.slug :: c == o || Outranks(c, o))
      && ((forall c | c in page :: c.slug != o.slug) ==> |page| == r.limit && forall c | c in page :: Outranks(c, o))
  {
    PageIsBestOfEachSlug(docs, r);
    FilteredVersions(docs, r);
    BeforeSeparates(Filtered(docs, r));
    var page, rows := SearchCandidates(docs, r), Filtered(docs, r);
    hide Before, Outranks, Filtered, SearchCandidates;
    forall c | c in page ensures Before(c, o) <==> Outranks(c, o) {
      BeforeOutranks(c, o);
    }
    forall c | c in page && c.slug == o.slug ensures c == o || Before(c, o) {
      var i :| 0 <= i < |rows| && rows[i] == c;
      var j :| 0 <= j < |rows| && rows[j] == o;
    }
  }

  /** A search page: at most `limit` rows of distinct slugs, each the row of a wanted document, each
      outranking every row after it; a wanted document of a slug on the page is outranked by the slug's
      row; and a wanted document of no slug on the page is outranked by a full page. */
  lemma PageInKeys(docs: seq<Document>, r: Request)
    requires KeyedDocuments(docs)
    ensures var page := SearchCandidates(docs, r);
      && |page| <= r.limit
      && (forall c | c in page :: exists d | d in docs :: Wanted(d, r) && RowOf(c, d, r))
      && (forall i, j | 0 <= i < j < |page| :: page[i].slug != page[j].slug && Outranks(page[i], page[j]))
    ensures var page := SearchCandidates(docs, r);
      forall d, o | d in docs && Wanted(d, r) && RowOf(o, d, r) ::
        && (forall c | c in page && c.slug == o.slug :: c == o || Outranks(c, o))
        && ((forall c | c in page :: c.slug != o.slug) ==> |page| == r.limit && forall c | c in page :: Outranks(c, o))
  {
    PageIsBestOfEachSlug(docs, r);
    var page, key := SearchCandidates(docs, r), (c: Candidate) => c.slug;
    forall c | c in page ensures exists d | d in docs :: Wanted(d, r) && RowOf(c, d, r) {
      FilteredIff(docs, r, c);
    }
    forall i, j | 0 <= i < j < |page| ensures page[i].slug != page[j].slug && Outranks(page[i], page[j]) {
      assert key(page[i]) != key(page[j]);
      BeforeOutranks(page[i], page[j]);
    }
    forall d, o | d in docs && Wanted(d, r) && RowOf(o, d, r)
      ensures forall c | c in page && c.slug == o.slug :: c == o || Outranks(c, o)
      ensures (forall c | c in page :: c.slug != o.slug) ==> |page| == r.limit && forall c | c in page :: Outranks(c, o)
    {
      FilteredIff(docs, r, o);
      OtherRowIsOutranked(docs, r, o);
    }
  }

  // --- The fused page -------------------------------------------------------------------------------

  /** m is the last position of the slug in the list. */
  ghost predicate LastAt(list: seq<Candidate>, slug: string, m: nat) {
    m < |list| && list[m].slug == slug && forall i | m < i < |list| :: list[i].slug != slug
  }

  ghost predicate Listed(list: seq<Candidate>, slug: string) {
    exists c | c in list :: c.slug == slug
  }

  /** What a list adds to the score of a slug: one over sixty plus its one-based rank, and nothing for a
      slug that it does not have. */
  ghost function Share(list: seq<Candidate>, slug: string): real {
    if exists m: nat :: LastAt(list, slug, m) then
      var m: nat :| LastAt(list, slug, m); 1.0 / (m as real + 61.0)
    else 0.0
  }

  /** The boost that counts: the given one, or the nearer end of the band from zero to the cap. */
  function Bounded(given: real, cap: real): real {
    if cap < 0.0 || given >= cap then cap else if given <= 0.0 then 0.0 else given
  }

  function Given(boosts: Boosts, slug: string): real {
    if slug in boosts then boosts[slug] else 0.0
  }

  /** The fused score: the shares of both lists and the boost, added up. */
  ghost function FusedScore(lexical: seq<Candidate>, semantic: seq<Candidate>, boosts: Boosts, cap: real,
      slug: string): real {
    Share(lexical, slug) + Share(semantic, slug) + Bounded(Given(boosts, slug), cap)
  }

  lemma {:induction false} LastIndexIsLast(list: seq<Candidate>, slug: string)
    ensures var at := LastIndex(list, slug);
      if at.Some? then LastAt(list, slug, at.value) else forall m: nat :: !LastAt(list, slug, m)
  {
    if list != [] && list[|list| - 1].slug != slug {
      LastIndexIsLast(list[..|list| - 1], slug);
    }
  }

  lemma LastIsOne(list: seq<Candidate>, slug: string, m: nat, n: nat)
    requires LastAt(list, slug, m) && LastAt(list, slug, n)
    ensures m == n
  {
    assert list[m].slug == list[n].slug;
  }

  lemma ShareAt(list: seq<Candidate>, slug: string, m: nat)
    requires LastAt(list, slug, m)
    ensures Share(list, slug) == 1.0 / (m as real + 61.0)
  {
    forall n: nat | LastAt(list, slug, n) ensures n == m {
      LastIsOne(list, slug, m, n);
    }
  }

  lemma RankIsShare(list: seq<Candidate>, slug: string)
    ensures RankScore(OneBased(LastIndex(list, slug))) == Share(list, slug)
  {
    LastIndexIsLast(list, slug);
    var at := LastIndex(list, slug);
    if at.Some? {
      ShareAt(list, slug, at.value);
      assert (at.value + 1 + 60) as real == at.value as real + 61.0;
    }
  }

  lemma EntryHasScore(lexical: seq<Candidate>, semantic: seq<Candidate>, boosts: Boosts, cap: real, slug: string)
    requires Mentions(lexical, slug) || Mentions(semantic, slug)
    ensures Score(Entry(lexical, semantic, boosts, cap, slug)) == FusedScore(lexical, semantic, boosts, cap, slug)
  {
    RankIsShare(lexical, slug);
    RankIsShare(semantic, slug);
    hide Share, RankScore;
  }

  /** The row that stands for a slug: its last lexical row, or else its first semantic row. */
  ghost predicate Represents(c: Candidate, lexical: seq<Candidate>, semantic: seq<Candidate>) {
    if Listed(lexical, c.slug) then exists m: nat :: LastAt(lexical, c.slug, m) && c == lexical[m]
    else exists m: nat :: m < |semantic| && c == semantic[m] && forall i | 0 <= i < m :: semantic[i].slug != c.slug
  }

  lemma {:induction false} FirstIndexIsFirst(list: seq<Candidate>, slug: string)
    ensures var at := FirstIndex(list, slug); at.Some? ==> forall j | 0 <= j < at.value :: list[j].slug != slug
  {
    if list != [] {
      FirstIndexIsFirst(list[..|list| - 1], slug);
      if FirstIndex(list[..|list| - 1], slug).None? {
        assert forall j | 0 <= j < |list| - 1 :: list[..|list| - 1][j] == list[j];
      }
    }
  }

  lemma ListedIff(list: seq<Candidate>, slug: string)
    ensures Listed(list, slug) <==> Mentions(list, slug)
  {
    if i :| 0 <= i < |list| && list[i].slug == slug {
      assert list[i] in list;
    }
  }

  lemma EntryRepresents(lexical: seq<Candidate>, semantic: seq<Candidate>, boosts: Boosts, cap: real, slug: string)
    requires Mentions(lexical, slug) || Mentions(semantic, slug)
    ensures var c := Entry(lexical, semantic, boosts, cap, slug).candidate;
      c.slug == slug && Represents(c, lexical, semantic)
  {
    ListedIff(lexical, slug);
    LastIndexIsLast(lexical, slug);
    FirstIndexIsFirst(semantic, slug);
  }

  lemma RepresentedOnce(a: Candidate, b: Candidate, lexical: seq<Candidate>, semantic: seq<Candidate>)
    requires Represents(a, lexical, semantic) && Represents(b, lexical, semantic) && a.slug == b.slug
    ensures a == b
  {
    if Listed(lexical, a.slug) {
      var m: nat :| LastAt(lexical, a.slug, m) && a == lexical[m];
      var n: nat :| LastAt(lexical, b.slug, n) && b == lexical[n];
      LastIsOne(lexical, a.slug, m, n);
    }
  }

  /** a may stand before b on a fused page if x and y are their scores. */
  ghost predicate OutranksFused(a: Candidate, b: Candidate, x: real, y: real) {
    && ExactFirst(a, b)
    && (SameExactness(a, b) ==> x >= y)
    && (SameExactness(a, b) && x == y ==> TieBroken(a, b))
  }

  lemma FusedBeforeOutranks(a: Ranked, b: Ranked)
    ensures FusedBefore(a, b) <==> OutranksFused(a.candidate, b.candidate, Score(a), Score(b))
  {
    TextBeforeIff(a.candidate.slug, b.candidate.slug);
    TextBeforeIsStrict(a.candidate.slug);
    hide TextBefore, Precedent, Score;
  }

  /** The order of two slugs, by the rows that stand for them and their scores. */
  ghost predicate ComesFirst(a: Candidate, b: Candidate, lexical: seq<Candidate>, semantic: seq<Candidate>,
      boosts: Boosts, cap: real)
  {
    OutranksFused(a, b, FusedScore(lexical, semantic, boosts, cap, a.slug),
      FusedScore(lexical, semantic, boosts, cap, b.slug))
  }

  lemma EntriesInOrder(lexical: seq<Candidate>, semantic: seq<Candidate>, boosts: Boosts, cap: real, a: Ranked,
      b: Ranked)
    requires EntryOf(a, lexical, semantic, boosts, cap) && EntryOf(b, lexical, semantic, boosts, cap)
    ensures FusedBefore(a, b) <==> ComesFirst(a.candidate, b.candidate, lexical, semantic, boosts, cap)
  {
    EntryHasScore(lexical, semantic, boosts, cap, SlugOf(a));
    EntryHasScore(lexical, semantic, boosts, cap, SlugOf(b));
    FusedBeforeOutranks(a, b);
    hide FusedBefore, OutranksFused, Score, FusedScore, Entry;
  }

  lemma RepresentedIsMentioned(o: Candidate, lexical: seq<Candidate>, semantic: seq<Candidate>)
    requires Represents(o, lexical, semantic)
    ensures Mentions(lexical, o.slug) || Mentions(semantic, o.slug)
  {
    ListedIff(lexical, o.slug);
  }

  lemma MissingSlugComesLater(lexical: seq<Candidate>, semantic: seq<Candidate>, boosts: Boosts, limit: nat, cap: real,
      o: Candidate)
    requires Represents(o, lexical, semantic) && !Listed(Fuse(lexical, semantic, boosts, limit, cap), o.slug)
    ensures var page := Fuse(lexical, semantic, boosts, limit, cap);
      |page| == limit && forall c | c in page :: ComesFirst(c, o, lexical, semantic, boosts, cap)
  {
    hide Ranking, FusedBefore, Entry, ComesFirst, Represents, Score, Mentions;
    RankingIsSortedUnion(lexical, semantic, boosts, cap);
    var ranking, page := Ranking(lexical, semantic, boosts, cap), Fuse(lexical, semantic, boosts, limit, cap);
    RepresentedIsMentioned(o, lexical, semantic);
    var r := Entry(lexical, semantic, boosts, cap, o.slug);
    EntryRepresents(lexical, semantic, boosts, cap, o.slug);
    RepresentedOnce(o, r.candidate, lexical, semantic);
    assert EntryOf(r, lexical, semantic, boosts, cap);
    var k :| 0 <= k < |ranking| && ranking[k] == r;
    assert forall i | 0 <= i < |page| :: page[i] in page && page[i] == ranking[i].candidate;
    forall c | c in page ensures ComesFirst(c, o, lexical, semantic, boosts, cap) {
      var i :| 0 <= i < |page| && page[i] == c;
      assert FusedBefore(ranking[i], ranking[k]) && ranking[i] in ranking;
      EntriesInOrder(lexical, semantic, boosts, cap, ranking[i], ranking[k]);
    }
  }

  /** A fused page: at most `limit` rows of distinct slugs, each standing for its slug, each before every
      row after it by exact matches, fused score and the tie-breaking keys; and a slug of either list that
      is missing comes after a full page. */
  lemma FusedPageInKeys(lexical: seq<Candidate>, semantic: seq<Candidate>, boosts: Boosts, limit: nat, cap: real)
    ensures var page := Fuse(lexical, semantic, boosts, limit, cap);
      && |page| <= limit
      && (forall c | c in page :: Represents(c, lexical, semantic))
      && (forall i, j | 0 <= i < j < |page| ::
            page[i].slug != page[j].slug && ComesFirst(page[i], page[j], lexical, semantic, boosts, cap))
    ensures var page := Fuse(lexical, semantic, boosts, limit, cap);
      forall o | Represents(o, lexical, semantic) && !Listed(page, o.slug) ::
        |page| == limit && forall c | c in page :: ComesFirst(c, o, lexical, semantic, boosts, cap)
  {
    hide Ranking, FusedBefore, Entry, ComesFirst, Represents, Score;
    RankingIsSortedUnion(lexical, semantic, boosts, cap);
    var ranking, page := Ranking(lexical, semantic, boosts, cap), Fuse(lexical, semantic, boosts, limit, cap);
    forall i | 0 <= i < |page|
      ensures ranking[i] in ranking && page[i] == ranking[i].candidate && Represents(page[i], lexical, semantic)
    {
      assert EntryOf(ranking[i], lexical, semantic, boosts, cap);
      EntryRepresents(lexical, semantic, boosts, cap, SlugOf(ranking[i]));
    }
    forall i, j | 0 <= i < j < |page|
      ensures page[i].slug != page[j].slug && ComesFirst(page[i], page[j], lexical, semantic, boosts, cap)
    {
      assert SlugOf(ranking[i]) != SlugOf(ranking[j]) && FusedBefore(ranking[i], ranking[j]);
      EntriesInOrder(lexical, semantic, boosts, cap, ranking[i], ranking[j]);
    }
    forall o | Represents(o, lexical, semantic) && !Listed(page, o.slug)
      ensures |page| == limit && forall c | c in page :: ComesFirst(c, o, lexical, semantic, boosts, cap)
    {
      MissingSlugComesLater(lexical, semantic, boosts, limit, cap, o);
    }
  }

  lemma NotListed(list: seq<Candidate>, slug: string)
    requires !Listed(list, slug)
    ensures Share(list, slug) == 0.0
  {
    forall m: nat ensures !LastAt(list, slug, m) {
      assert m < |list| ==> list[m] in list;
    }
  }

  /** In ranks: among rows with equal exact flags and without boosts, a row that both lists know comes
      before a row that one list knows exactly by the sum of its two reciprocal ranks. */
  lemma RanksDecide(lexical: seq<Candidate>, semantic: seq<Candidate>, a: Candidate, b: Candidate, m: nat, n: nat,
      k: nat)
    requires LastAt(lexical, a.slug, m) && LastAt(semantic, a.slug, n) && LastAt(lexical, b.slug, k)
    requires !Listed(semantic, b.slug) && SameExactness(a, b)
    ensures var both, one := 1.0 / (m as real + 61.0) + 1.0 / (n as real + 61.0), 1.0 / (k as real + 61.0);
      && (both > one ==>
         ComesFirst(a, b, lexical, semantic, map[], 0.0) && !ComesFirst(b, a, lexical, semantic, map[], 0.0))
      && (both < one ==>
         ComesFirst(b, a, lexical, semantic, map[], 0.0) && !ComesFirst(a, b, lexical, semantic, map[], 0.0))
  {
    ShareAt(lexical, a.slug, m);
    ShareAt(semantic, a.slug, n);
    ShareAt(lexical, b.slug, k);
    NotListed(semantic, b.slug);
  }
}
