/** Lexical retrieval: the SQL that filters search documents, keeps the best version of each
    slug with ROW_NUMBER, orders the survivors and cuts the list. */
module SearchRanking {
  import opened Collections
  import opened GroupRanking
  import opened Orders
  import Governance
  import LikePattern

  /** One row of `skill_search_documents` joined with its skill. Full-text matching and scoring
      belong to PostgreSQL and arrive as per-row values. */
  datatype Document = Document(
    versionFk: int,
    slug: string,
    normalizedSlug: string,
    version: string,
    normalizedName: string,
    normalizedTags: set<string>,
    attributes: Governance.Attributes,
    publishedAt: int,
    sizeBytes: int,
    installCount: int,
    textHit: bool,
    textScore: real)

  datatype Request = Request(
    identityText: Option<string>,
    fullText: Option<string>,
    requiredTags: set<string>,
    publishedAfter: Option<int>,
    maxSizeBytes: Option<int>,
    lifecycles: set<Governance.Lifecycle>,
    trustTiers: set<Governance.TrustTier>,
    filters: Governance.Filters,
    limit: nat)

  datatype Candidate = Candidate(
    versionFk: int,
    slug: string,
    version: string,
    attributes: Governance.Attributes,
    publishedAt: int,
    sizeBytes: int,
    usageCount: int,
    exactSlugMatch: bool,
    exactNameMatch: bool,
    lexicalScore: real,
    tagOverlapCount: int)

  // --- The WHERE clause --------------------------------------------------------------------

  predicate ContainsClause(text: Option<string>, stored: string) {
    match LikePattern.BuildContainsPattern(text)
    case None => false
    case Some(p) => LikePattern.WellFormed(p) && LikePattern.Like(p, stored)
  }

  predicate TextClause(d: Document, r: Request) {
    || (r.identityText.None? && r.fullText.None?)
    || (r.fullText.Some? && d.textHit)
    || r.identityText == Some(d.normalizedSlug)
    || r.identityText == Some(d.normalizedName)
    || ContainsClause(r.identityText, d.normalizedSlug)
    || ContainsClause(r.identityText, d.normalizedName)
  }

  predicate Selected(d: Document, r: Request) {
    && TextClause(d, r)
    && (|| r.requiredTags == {}
        || r.identityText == Some(d.normalizedSlug)
        || r.identityText == Some(d.normalizedName)
        || r.requiredTags <= d.normalizedTags)
    && (r.publishedAfter.None? || d.publishedAt >= r.publishedAfter.value)
    && (r.maxSizeBytes.None? || d.sizeBytes <= r.maxSizeBytes.value)
    && d.attributes.lifecycle in r.lifecycles
    && d.attributes.trustTier in r.trustTiers
    && Governance.Passes(r.filters, d.attributes)
  }

  function Project(d: Document, r: Request): Candidate {
    Candidate(d.versionFk, d.slug, d.version, d.attributes, d.publishedAt, d.sizeBytes, d.installCount,
              r.identityText == Some(d.normalizedSlug), r.identityText == Some(d.normalizedName),
              if r.fullText.Some? then d.textScore else 0.0,
              |d.normalizedTags * r.requiredTags|)
  }

  function Filtered(docs: seq<Document>, r: Request): seq<Candidate> {
    if docs == [] then []
    else (if Selected(docs[0], r) then [Project(docs[0], r)] else []) + Filtered(docs[1..], r)
  }

  /** With a search text, a row is found by full text or because the text occurs in its slug or
      name; the two equality branches add nothing, and wildcards in the text are literal. */
  lemma TextClauseMeansOccurs(d: Document, r: Request)
    requires r.identityText.Some?
    ensures TextClause(d, r) <==>
      || (r.fullText.Some? && d.textHit)
      || (exists at :: LikePattern.Occurs(r.identityText.value, d.normalizedSlug, at))
      || (exists at :: LikePattern.Occurs(r.identityText.value, d.normalizedName, at))
  {
    var v := r.identityText.value;
    LikePattern.ContainsPatternMeansOccurs(v, d.normalizedSlug);
    LikePattern.ContainsPatternMeansOccurs(v, d.normalizedName);
    if v == d.normalizedSlug {
      assert d.normalizedSlug[0..0 + |v|] == v;
      assert LikePattern.Occurs(v, d.normalizedSlug, 0);
    }
    if v == d.normalizedName {
      assert d.normalizedName[0..0 + |v|] == v;
      assert LikePattern.Occurs(v, d.normalizedName, 0);
    }
  }

  // --- The nine-key order ------------------------------------------------------------------

  predicate TextBefore(a: string, b: string) {
    if b == [] then false
    else if a == [] then true
    else if a[0] != b[0] then a[0] < b[0]
    else TextBefore(a[1..], b[1..])
  }

  lemma {:induction false} TextBeforeTransitive(a: string, b: string, c: string)
    requires TextBefore(a, b) && TextBefore(b, c)
    ensures TextBefore(a, c)
  {
    if a != [] && a[0] == b[0] == c[0] {
      TextBeforeTransitive(a[1..], b[1..], c[1..]);
    }
  }

  lemma {:induction false} TextBeforeIsStrict(a: string)
    ensures !TextBefore(a, a)
  {
    if a != [] { TextBeforeIsStrict(a[1..]); }
  }

  lemma {:induction false} TextBeforeSeparates(a: string, b: string)
    requires a != b
    ensures TextBefore(a, b) || TextBefore(b, a)
  {
    if a != [] && b != [] && a[0] == b[0] {
      assert a == [a[0]] + a[1..] && b == [b[0]] + b[1..];
      TextBeforeSeparates(a[1..], b[1..]);
    }
  }

  predicate Before(a: Candidate, b: Candidate) {
    if a.exactSlugMatch != b.exactSlugMatch then a.exactSlugMatch
    else if a.exactNameMatch != b.exactNameMatch then a.exactNameMatch
    else if a.lexicalScore != b.lexicalScore then a.lexicalScore > b.lexicalScore
    else if a.tagOverlapCount != b.tagOverlapCount then a.tagOverlapCount > b.tagOverlapCount
    else if a.usageCount != b.usageCount then a.usageCount > b.usageCount
    else if a.publishedAt != b.publishedAt then a.publishedAt > b.publishedAt
    else if a.sizeBytes != b.sizeBytes then a.sizeBytes < b.sizeBytes
    else if a.slug != b.slug then TextBefore(a.slug, b.slug)
    else a.versionFk > b.versionFk
  }

  lemma BeforeIsStrictOrder()
    ensures StrictOrder(Before)
  {
    forall a, b, c | Before(a, b) && Before(b, c) ensures Before(a, c) {
      if a.slug != b.slug && b.slug != c.slug && TextBefore(a.slug, b.slug) && TextBefore(b.slug, c.slug) {
        TextBeforeTransitive(a.slug, b.slug, c.slug);
        TextBeforeIsStrict(a.slug);
      }
    }
  }

  ghost predicate DistinctVersionFks(rows: seq<Candidate>) {
    forall i, j | 0 <= i < j < |rows| :: rows[i].versionFk != rows[j].versionFk
  }

  lemma BeforeSeparates(rows: seq<Candidate>)
    requires DistinctVersionFks(rows)
    ensures Separates(Before, rows)
  {
    forall i, j | 0 <= i < j < |rows| ensures Before(rows[i], rows[j]) || Before(rows[j], rows[i]) {
      if rows[i].slug != rows[j].slug { TextBeforeSeparates(rows[i].slug, rows[j].slug); }
    }
  }

  // --- ROW_NUMBER per slug, then order, then limit -------------------------------------------

  /** `skill_version_fk` is the primary key of the search documents. */
  ghost predicate KeyedDocuments(docs: seq<Document>) {
    forall i, j | 0 <= i < j < |docs| :: docs[i].versionFk != docs[j].versionFk
  }

  function SearchCandidates(docs: seq<Document>, r: Request): seq<Candidate> {
    var rows := Filtered(docs, r);
    Take(Sort(Before, Winners(Before, (c: Candidate) => c.slug, rows, rows)), r.limit)
  }

  lemma {:induction false} FilteredVersions(docs: seq<Document>, r: Request)
    requires KeyedDocuments(docs)
    ensures DistinctVersionFks(Filtered(docs, r))
    ensures forall c :: c in Filtered(docs, r) <==> exists d | d in docs :: Selected(d, r) && c == Project(d, r)
  {
    if docs != [] {
      FilteredVersions(docs[1..], r);
      var rest := Filtered(docs[1..], r);
      assert docs == [docs[0]] + docs[1..];
      forall i | 0 <= i < |rest| ensures rest[i].versionFk != docs[0].versionFk {
        assert rest[i] in rest;
        var d :| d in docs[1..] && Selected(d, r) && rest[i] == Project(d, r);
      }
    }
  }

  /** Ranking inside each slug first and sorting the survivors afterwards gives the same page as
      sorting every selected row, keeping the first row of each slug and cutting. */
  lemma RankThenSortIsSortThenFirst(docs: seq<Document>, r: Request)
    requires KeyedDocuments(docs)
    ensures SearchCandidates(docs, r)
         == Take(FirstPerKey((c: Candidate) => c.slug, Sort(Before, Filtered(docs, r))), r.limit)
  {
    FilteredVersions(docs, r);
    BeforeIsStrictOrder();
    BeforeSeparates(Filtered(docs, r));
    WinnersSortedAreFirstPerKey(Before, (c: Candidate) => c.slug, Filtered(docs, r));
  }

  ghost predicate SlugOmitted(page: seq<Candidate>, slug: string) {
    forall c | c in page :: c.slug != slug
  }

  /** What a search page promises: at most `limit` rows, in order, one per slug, each a selected
      row that no selected row of its slug beats; and a slug is left out only when the page is
      full of rows that beat every row of that slug. */
  lemma PageIsBestOfEachSlug(docs: seq<Document>, r: Request)
    requires KeyedDocuments(docs)
    ensures var page, rows := SearchCandidates(docs, r), Filtered(docs, r);
      && |page| <= r.limit
      && Sorted(Before, page)
      && DistinctKeys((c: Candidate) => c.slug, page)
      && (forall c | c in page :: IsBest(Before, (c: Candidate) => c.slug, rows, c))
      && (forall o | o in rows && SlugOmitted(page, o.slug) ::
            |page| == r.limit && forall c | c in page :: Before(c, o))
  {
    var key := (c: Candidate) => c.slug;
    var page, rows := SearchCandidates(docs, r), Filtered(docs, r);
    RankThenSortIsSortThenFirst(docs, r);
    FilteredVersions(docs, r);
    BeforeIsStrictOrder();
    BeforeSeparates(rows);
    SortSorts(Before, rows);
    SortKeepsElements(Before, rows);
    var sorted := Sort(Before, rows);
    FirstPerKeySorted(Before, key, sorted);
    FirstPerKeyMembers(key, sorted);
    FirstOfKeyIsBest(Before, key, rows, sorted);
    forall o | o in rows && SlugOmitted(page, o.slug)
      ensures |page| == r.limit && forall c | c in page :: Before(c, o)
    {
      assert o in Elements(rows);
      CutKeepsTheBest(Before, key, sorted, r.limit, o);
    }
  }

  /** The page does not depend on the order in which PostgreSQL scans the documents. */
  lemma PageIgnoresScanOrder(docs: seq<Document>, other: seq<Document>, r: Request)
    requires KeyedDocuments(docs) && KeyedDocuments(other) && Elements(docs) == Elements(other)
    ensures SearchCandidates(docs, r) == SearchCandidates(other, r)
  {
    RankThenSortIsSortThenFirst(docs, r);
    RankThenSortIsSortThenFirst(other, r);
    FilteredVersions(docs, r);
    FilteredVersions(other, r);
    assert forall d :: d in docs <==> d in Elements(docs);
    assert forall d :: d in other <==> d in Elements(other);
    assert Elements(Filtered(docs, r)) == Elements(Filtered(other, r));
    BeforeIsStrictOrder();
    BeforeSeparates(Filtered(docs, r));
    BeforeSeparates(Filtered(other, r));
    SortIgnoresArrival(Before, Filtered(docs, r), Filtered(other, r));
  }

  /** The best selected row of a slug, if any row of the slug is selected. */
  ghost predicate BestRow(docs: seq<Document>, r: Request, c: Candidate) {
    IsBest(Before, (x: Candidate) => x.slug, Filtered(docs, r), c)
  }

  /** The slugs whose best selected row comes before `c`. */
  ghost function SlugsAhead(docs: seq<Document>, r: Request, c: Candidate): set<string> {
    set b | b in Filtered(docs, r) && BestRow(docs, r, b) && Before(b, c) :: b.slug
  }

  lemma BestRowIsUnique(docs: seq<Document>, r: Request, a: Candidate, b: Candidate)
    requires KeyedDocuments(docs) && BestRow(docs, r, a) && BestRow(docs, r, b) && a.slug == b.slug
    ensures a == b
  {
    var rows := Filtered(docs, r);
    FilteredVersions(docs, r);
    BeforeSeparates(rows);
    var i :| 0 <= i < |rows| && rows[i] == a;
    var j :| 0 <= j < |rows| && rows[j] == b;
  }

  lemma SlugsAheadCount(docs: seq<Document>, r: Request, c: Candidate, ahead: set<Candidate>)
    requires KeyedDocuments(docs)
    requires forall b :: b in ahead <==> BestRow(docs, r, b) && Before(b, c)
    ensures |SlugsAhead(docs, r, c)| == |ahead|
  {
    var slug := (b: Candidate) => b.slug;
    forall a, b | a in ahead && b in ahead && slug(a) == slug(b) ensures a == b {
      BestRowIsUnique(docs, r, a, b);
    }
    InjectiveImageSize(slug, ahead);
    assert ImageOf(slug, ahead) == SlugsAhead(docs, r, c);
  }

  /** The best row of a slug is on the page exactly when fewer slugs than the limit have a best row
      before it. */
  lemma BestRowIsOnThePageIff(docs: seq<Document>, r: Request, best: Candidate)
    requires KeyedDocuments(docs) && BestRow(docs, r, best)
    ensures best in SearchCandidates(docs, r) <==> |SlugsAhead(docs, r, best)| < r.limit
  {
    hide Before, Filtered, Sort, Winners, SlugsAhead;
    var key, rows := (c: Candidate) => c.slug, Filtered(docs, r);
    FilteredVersions(docs, r);
    BeforeIsStrictOrder();
    BeforeSeparates(rows);
    BestMakesTheCutIff(Before, key, rows, r.limit, best);
    SlugsAheadCount(docs, r, best, BestAhead(Before, key, rows, best));
  }
}
