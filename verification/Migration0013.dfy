/** Revision 0013: metadata moves from its own table into the version rows, and derived columns go.
    A column that only one side has is a map of its own, keyed like its table. */
module Migration0013 {
  import opened Catalogue
  import opened CanonicalJson
  import opened Collections
  import opened Selectors
  import CatalogueHistory
  import CatalogueLaws
  import CoUsage
  import Embeddings
  import VersionChecksum

  /** Assessments came with revision 0014, so on both sides of 0013 there are none. */
  type Metadata = VersionChecksum.Metadata

  datatype GraphEdgeType = DependsOnEdge | ExtendsEdge | OverlapsWithEdge | RelatesToEdge
  datatype EdgeSource = Authored | CoUsageDerived

  datatype EdgeRow = EdgeRow(
    source: Id,
    sourceVersion: Option<Id>,
    target: Option<Id>,
    targetSlug: string,
    edgeType: GraphEdgeType,
    provenance: EdgeSource,
    active: bool,
    confidence: Option<int>,
    evidence: map<string, Json>)

  /** Tables of which 0013 changes no column. */
  datatype Untouched = Untouched(
    stars: set<(string, Id)>,
    observations: map<Id, (Id, Id)>,
    pairs: map<CoUsage.Pair, CoUsage.PairRow>,
    embeddings: map<Embeddings.Key, Embeddings.Row>)

  datatype Legacy = Legacy(
    catalogue: TablesWith<Id>,
    metadata: map<Id, Metadata>,
    rest: Untouched,
    edges: map<Id, EdgeRow>,
    starCounts: map<Id, int>,
    usageCounts: map<Id, int>,
    observationSlugs: map<Id, string>,
    pairScores: map<CoUsage.Pair, (int, int)>,
    dimensions: map<Embeddings.Key, int>)

  datatype Canonical = Canonical(catalogue: Tables, rest: Untouched, edges: map<Id, EdgeRow>)

  // --- Constraints of the canonical schema ---------------------------------------------------------

  /** The float tokens of numbers from zero to one. */
  predicate PrintsZeroToOne(l: Lexeme) {
    || l[0] == '0' || l == "1.0" || l == "-0.0"
    || (l[0] != '-' && exists i | 0 <= i < |l| - 1 :: l[i] == 'e' && l[i + 1] == '-')
  }

  predicate ValidMetadata(m: Metadata) {
    && (m.tokenEstimate.Some? ==> m.tokenEstimate.value >= 0)
    && (m.maturityScore.Some? ==> PrintsZeroToOne(m.maturityScore.value))
    && (m.securityScore.Some? ==> PrintsZeroToOne(m.securityScore.value))
    && (m.overallScore.Some? ==> PrintsZeroToOne(m.overallScore.value))
  }

  predicate SelectorShape(r: SelectorRow) {
    if r.edgeType == DependsOn then
      r.selector.version.Some? != r.selector.versionConstraint.Some?
    else
      r.selector.version.Some? && r.selector.versionConstraint.None? && r.selector.optional.None?
        && r.selector.markers == []
  }

  predicate SelectorShapes(selectors: map<Id, seq<SelectorRow>>) {
    forall v, r | v in selectors && r in selectors[v] :: SelectorShape(r)
  }

  predicate GraphShape(e: EdgeRow) {
    match e.provenance
    case Authored => e.sourceVersion.Some? && e.edgeType != RelatesToEdge
    case CoUsageDerived =>
      e.sourceVersion.None? && e.edgeType == RelatesToEdge && e.target.Some? && e.source < e.target.value
  }

  predicate OfSkillId<M>(t: TablesWith<M>, v: Id, skill: Id) {
    v in t.versions && t.versions[v].skill == skill
  }

  predicate GraphReferences<M>(t: TablesWith<M>, e: EdgeRow) {
    && (e.sourceVersion.Some? ==> OfSkillId(t, e.sourceVersion.value, e.source))
    && (e.target.Some? ==> e.target.value in t.skills && t.skills[e.target.value].slug == e.targetSlug)
  }

  predicate IndexedShape(r: Embeddings.Row) {
    r.status == Embeddings.Indexed ==> r.vector.Some? && r.indexedAt.Some?
  }

  predicate PairShape(p: CoUsage.Pair, r: CoUsage.PairRow) {
    p.0 != p.1 && r.runCount >= 0 && 0 <= r.rate <= CoUsage.UNIT && r.lift >= 0 && r.windowDays > 0
  }

  predicate ContentShape(c: ContentRow) {
    c.size == |c.payload|
  }

  /** What both schemas enforce: the foreign keys that 0013 does not touch. */
  predicate References<M>(t: TablesWith<M>, rest: Untouched) {
    && ForeignKeys(t)
    && t.documents.Keys <= t.versions.Keys
    && (forall o | o in rest.observations :: rest.observations[o].1 in t.skills)
  }

  ghost predicate CanonicalSchema(c: Canonical) {
    var t := c.catalogue;
    && References(t, c.rest)
    && (forall v | v in t.versions :: t.versions[v].metadata.assessment.None? && ValidMetadata(t.versions[v].metadata))
    && (forall x | x in t.contents :: ContentShape(t.contents[x]))
    && (forall v | v in t.selectors :: UniquePositions(t.selectors[v]))
    && SelectorShapes(t.selectors)
    && (forall e | e in c.edges :: GraphShape(c.edges[e]) && GraphReferences(t, c.edges[e]))
    && (forall k | k in c.rest.embeddings :: IndexedShape(c.rest.embeddings[k]))
    && (forall p | p in c.rest.pairs :: PairShape(p, c.rest.pairs[p]))
  }

  // --- Preflight ---------------------------------------------------------------------------------------

  datatype Code =
    | OrphanMetadata | VersionWithoutMetadata | InvalidMetadataValues | InvalidContentSize | StaleSearchDocument
    | DuplicateSelectorPositions | InvalidSelectorRows | InvalidObservationSlug | InvalidGraphIdentifiers
    | InvalidEmbeddingRows | InvalidCoUsageRows

  predicate Blank(s: string) {
    forall i | 0 <= i < |s| :: s[i] == ' '
  }

  predicate BlankSelector(r: SelectorRow) {
    || Blank(r.selector.slug)
    || (r.selector.version.Some? && Blank(r.selector.version.value))
    || (r.edgeType == DependsOn && r.selector.versionConstraint.Some? && Blank(r.selector.versionConstraint.value))
  }

  /** The document of version d, compared column by column with the rows it joins to. */
  predicate StaleDocument(l: Legacy, d: Id)
    requires ForeignKeys(l.catalogue)
  {
    var t := l.catalogue;
    d in t.documents && d in t.versions && t.versions[d].metadata in l.metadata &&
    var document, row := t.documents[d], t.versions[d];
    var skill, metadata := t.skills[row.skill], l.metadata[row.metadata];
    !(&& document.slug == skill.slug
      && document.version == row.version
      && document.name == metadata.name
      && document.description == metadata.description
      && document.tags == metadata.tags
      && document.lifecycle == row.lifecycle
      && document.trustTier == row.trustTier
      && document.namespace == t.namespaces[skill.namespace]
      && document.origin == row.origin
      && document.reviewState == row.reviewState
      && document.channel == row.channel
      && document.pack == PackSlug(t, row.pack)
      && document.publishedAt == row.publishedAt
      && document.contentSize == t.contents[row.content].size)
  }

  predicate Joins(versions: map<Id, VersionRowWith<Id>>, metadata: map<Id, Metadata>) {
    forall v | v in versions :: versions[v].metadata in metadata
  }

  predicate HasOrphans(versions: map<Id, VersionRowWith<Id>>, metadata: map<Id, Metadata>) {
    exists m | m in metadata :: forall v | v in versions :: versions[v].metadata != m
  }

  predicate HasInvalidValues(versions: map<Id, VersionRowWith<Id>>, metadata: map<Id, Metadata>) {
    exists v | v in versions :: versions[v].metadata in metadata && !ValidMetadata(metadata[versions[v].metadata])
  }

  predicate HasInvalidSelectors(selectors: map<Id, seq<SelectorRow>>) {
    exists v, r | v in selectors && r in selectors[v] :: BlankSelector(r) || !SelectorShape(r)
  }

  predicate HasInvalidEdges<M>(t: TablesWith<M>, edges: map<Id, EdgeRow>) {
    exists e | e in edges :: !GraphShape(edges[e]) || !GraphReferences(t, edges[e])
  }

  predicate HasInvalidSizes(contents: map<Id, ContentRow>) {
    exists x | x in contents :: !ContentShape(contents[x])
  }

  predicate HasDuplicatePositions(selectors: map<Id, seq<SelectorRow>>) {
    exists v | v in selectors :: !UniquePositions(selectors[v])
  }

  predicate HasInvalidSlugs(skills: map<Id, SkillRow>, observations: map<Id, (Id, Id)>, slugs: map<Id, string>) {
    exists o | o in observations && o in slugs ::
      observations[o].1 in skills && slugs[o] != skills[observations[o].1].slug
  }

  predicate HasInvalidEmbeddings(embeddings: map<Embeddings.Key, Embeddings.Row>,
      dimensions: map<Embeddings.Key, int>) {
    exists k | k in embeddings ::
      (k in dimensions && dimensions[k] != Embeddings.DIMENSIONS) || !IndexedShape(embeddings[k])
  }

  predicate HasInvalidPairs(pairs: map<CoUsage.Pair, CoUsage.PairRow>, scores: map<CoUsage.Pair, (int, int)>) {
    exists p | p in pairs :: !PairShape(p, pairs[p]) || (p in scores && scores[p].0 < 0)
  }

  /** Whether the preflight query of the code returns a row. */
  predicate Finds(l: Legacy, code: Code)
    requires ForeignKeys(l.catalogue)
  {
    var t := l.catalogue;
    match code
    case OrphanMetadata => HasOrphans(t.versions, l.metadata)
    case VersionWithoutMetadata => !Joins(t.versions, l.metadata)
    case InvalidMetadataValues => HasInvalidValues(t.versions, l.metadata)
    case InvalidContentSize => HasInvalidSizes(t.contents)
    case StaleSearchDocument => exists d | d in t.documents :: StaleDocument(l, d)
    case DuplicateSelectorPositions => HasDuplicatePositions(t.selectors)
    case InvalidSelectorRows => HasInvalidSelectors(t.selectors)
    case InvalidObservationSlug => HasInvalidSlugs(t.skills, l.rest.observations, l.observationSlugs)
    case InvalidGraphIdentifiers => HasInvalidEdges(t, l.edges)
    case InvalidEmbeddingRows => HasInvalidEmbeddings(l.rest.embeddings, l.dimensions)
    case InvalidCoUsageRows => HasInvalidPairs(l.rest.pairs, l.pairScores)
  }

  ghost predicate Clear(l: Legacy)
    requires ForeignKeys(l.catalogue)
  {
    forall code: Code :: !Finds(l, code)
  }

  // --- Upgrade --------------------------------------------------------------------------------------------

  const RETIRED_KEYS: set<string> := {"observation_count", "pmi_score"}

  function WithMetadata<M, N>(row: VersionRowWith<M>, metadata: N): VersionRowWith<N> {
    VersionRow(row.skill, row.version, row.content, metadata, row.checksum, row.provenance, row.origin, row.publishedAt,
               row.lifecycle, row.trustTier, row.reviewState, row.channel, row.pack)
  }

  function WithVersions<M, N>(t: TablesWith<M>, versions: map<Id, VersionRowWith<N>>): TablesWith<N> {
    Tables(t.namespaces, t.packs, t.skills, t.contents, versions, t.selectors, t.documents)
  }

  function Stripped(e: EdgeRow): EdgeRow {
    if e.provenance == CoUsageDerived then e.(evidence := e.evidence - RETIRED_KEYS) else e
  }

  function StrippedEdges(edges: map<Id, EdgeRow>): map<Id, EdgeRow> {
    map e | e in edges :: Stripped(edges[e])
  }

  /** `UPDATE skill_versions SET ... FROM skill_metadata`. */
  function JoinedVersions(versions: map<Id, VersionRowWith<Id>>, metadata: map<Id, Metadata>): map<Id, VersionRow>
    requires Joins(versions, metadata)
  {
    map v | v in versions :: WithMetadata(versions[v], metadata[versions[v].metadata])
  }

  predicate EveryVersionJoins(l: Legacy) {
    Joins(l.catalogue.versions, l.metadata)
  }

  function Upgraded(l: Legacy): Canonical
    requires EveryVersionJoins(l)
  {
    var t := l.catalogue;
    Canonical(
      WithVersions(t, JoinedVersions(t.versions, l.metadata)),
      l.rest,
      StrippedEdges(l.edges))
  }

  lemma StrippedEdgesStayValid(t: TablesWith<Id>, u: Tables, edges: map<Id, EdgeRow>)
    requires !HasInvalidEdges(t, edges) && u.skills == t.skills
    requires forall v | v in t.versions :: v in u.versions && u.versions[v].skill == t.versions[v].skill
    ensures forall e | e in StrippedEdges(edges) ::
      GraphShape(StrippedEdges(edges)[e]) && GraphReferences(u, StrippedEdges(edges)[e])
  {
    forall e | e in edges ensures GraphShape(Stripped(edges[e])) && GraphReferences(u, Stripped(edges[e])) {
      assert GraphShape(edges[e]) && GraphReferences(t, edges[e]);
    }
  }

  lemma JoinedMetadataIsValid(l: Legacy)
    requires Joins(l.catalogue.versions, l.metadata) && !HasInvalidValues(l.catalogue.versions, l.metadata)
    requires forall m | m in l.metadata :: l.metadata[m].assessment.None?
    ensures forall v | v in Upgraded(l).catalogue.versions ::
      Upgraded(l).catalogue.versions[v].metadata.assessment.None?
        && ValidMetadata(Upgraded(l).catalogue.versions[v].metadata)
  {
    hide ValidMetadata;
    var joined := Upgraded(l).catalogue.versions;
    forall v | v in joined ensures joined[v].metadata.assessment.None? && ValidMetadata(joined[v].metadata) {
      var m := l.catalogue.versions[v].metadata;
      assert m in l.metadata && joined[v].metadata == l.metadata[m];
    }
  }

  lemma SelectorsHaveShape(selectors: map<Id, seq<SelectorRow>>)
    requires !HasInvalidSelectors(selectors)
    ensures SelectorShapes(selectors)
  {
  }

  /** A clear preflight is all the upgrade needs: the copied rows meet every constraint that the
      canonical schema adds. */
  lemma ClearPreflightSuffices(l: Legacy)
    requires References(l.catalogue, l.rest) && Clear(l)
    requires forall m | m in l.metadata :: l.metadata[m].assessment.None?
    ensures EveryVersionJoins(l) && CanonicalSchema(Upgraded(l))
  {
    hide UniquePositions, ContentShape, HasInvalidSelectors, SelectorShapes, IndexedShape, PairShape, ValidMetadata,
      StaleDocument, HasInvalidEdges, GraphShape, GraphReferences, StrippedEdges, HasInvalidValues;
    assert !Finds(l, VersionWithoutMetadata) && !Finds(l, InvalidMetadataValues) && !Finds(l, InvalidContentSize);
    assert !Finds(l, DuplicateSelectorPositions) && !Finds(l, InvalidSelectorRows)
      && !Finds(l, InvalidGraphIdentifiers);
    assert !Finds(l, InvalidEmbeddingRows) && !Finds(l, InvalidCoUsageRows);
    JoinedMetadataIsValid(l);
    SelectorsHaveShape(l.catalogue.selectors);
    StrippedEdgesStayValid(l.catalogue, Upgraded(l).catalogue, l.edges);
  }

  // --- Downgrade -------------------------------------------------------------------------------------------

  function UpTo(ids: set<Id>, id: Id): set<Id> {
    set x | x in ids && x <= id
  }

  /** `ROW_NUMBER() OVER (ORDER BY id)`. */
  function RowNumber(ids: set<Id>, id: Id): nat {
    |UpTo(ids, id)|
  }

  lemma RowNumbersIncrease(ids: set<Id>, a: Id, b: Id)
    requires a in ids && b in ids
    ensures RowNumber(ids, a) < RowNumber(ids, b) <==> a < b
    ensures RowNumber(ids, a) == RowNumber(ids, b) <==> a == b
    ensures 1 <= RowNumber(ids, a) <= |ids|
  {
    SubsetSize(UpTo(ids, a), ids);
    SubsetSize({a}, UpTo(ids, a));
    if a < b {
      SubsetSize(UpTo(ids, a), UpTo(ids, b) - {b});
    } else if b < a {
      SubsetSize(UpTo(ids, b), UpTo(ids, a) - {a});
    }
  }

  /** Every number from one to the row count is the number of exactly one row. */
  lemma {:induction false} EveryNumberIsUsed(ids: set<Id>, n: nat) returns (id: Id)
    requires 1 <= n <= |ids|
    ensures id in ids && RowNumber(ids, id) == n
  {
    var top := MaxOf(ids);
    var rest := ids - {top};
    if n == |ids| {
      assert UpTo(ids, top) == ids;
      id := top;
    } else {
      id := EveryNumberIsUsed(rest, n);
      assert UpTo(ids, id) == UpTo(rest, id);
    }
  }

  /** `ROUND(LN(lift), 6)`, and what the edge-evidence casts give where no pair is left. */
  datatype Numeric = Numeric(ln: int -> int, recorded: map<string, Json> -> (Json, Json))

  function PairScores(r: CoUsage.PairRow, num: Numeric): (int, int) {
    (r.runCount, if r.lift > 0 then num.ln(r.lift) else 0)
  }

  function Millionths(n: int): Json {
    Number(VersionChecksum.Decimal(n))
  }

  /** MAX over both directions of the pair, or the values recorded in the evidence. */
  function EdgeMetrics(e: EdgeRow, scores: map<CoUsage.Pair, (int, int)>, num: Numeric): (Json, Json)
    requires e.target.Some?
  {
    var there, back := (e.source, e.target.value), (e.target.value, e.source);
    if there in scores && back in scores then
      (Millionths(Max(scores[there].0, scores[back].0)), Millionths(Max(scores[there].1, scores[back].1)))
    else if there in scores then (Millionths(scores[there].0), Millionths(scores[there].1))
    else if back in scores then (Millionths(scores[back].0), Millionths(scores[back].1))
    else num.recorded(e.evidence)
  }

  function Restored(e: EdgeRow, scores: map<CoUsage.Pair, (int, int)>, num: Numeric): EdgeRow {
    if e.provenance != CoUsageDerived || e.target.None? then e
    else
      var metrics := EdgeMetrics(e, scores, num);
      e.(evidence := e.evidence["observation_count" := metrics.0]["pmi_score" := metrics.1])
  }

  function RestoredEdges(edges: map<Id, EdgeRow>, scores: map<CoUsage.Pair, (int, int)>,
      num: Numeric): map<Id, EdgeRow> {
    map e | e in edges :: Restored(edges[e], scores, num)
  }

  function StarsOf(stars: set<(string, Id)>, skill: Id): set<(string, Id)> {
    set s | s in stars && s.1 == skill
  }

  function StarColumn(t: Tables, stars: set<(string, Id)>): map<Id, int> {
    map s | s in t.skills :: |StarsOf(stars, s)|
  }

  function UsageColumn(t: Tables): map<Id, int>
    requires ForeignKeys(t) && t.documents.Keys <= t.versions.Keys
  {
    map d | d in t.documents :: t.skills[t.versions[d].skill].installs
  }

  function SlugColumn(skills: map<Id, SkillRow>, observations: map<Id, (Id, Id)>): map<Id, string>
    requires forall o | o in observations :: observations[o].1 in skills
  {
    map o | o in observations :: skills[observations[o].1].slug
  }

  function ScoreColumns(pairs: map<CoUsage.Pair, CoUsage.PairRow>, num: Numeric): map<CoUsage.Pair, (int, int)> {
    map p | p in pairs :: PairScores(pairs[p], num)
  }

  function DimensionColumn(embeddings: map<Embeddings.Key, Embeddings.Row>): map<Embeddings.Key, int> {
    map k | k in embeddings :: Embeddings.DIMENSIONS
  }

  /** `UPDATE skill_versions SET metadata_fk = ROW_NUMBER() ...`. */
  function NumberedVersions(t: Tables): map<Id, VersionRowWith<Id>> {
    map v | v in t.versions :: WithMetadata(t.versions[v], RowNumber(t.versions.Keys, v))
  }

  lemma NumbersAreDistinct(ids: set<Id>)
    ensures forall a, b | a in ids && b in ids && RowNumber(ids, a) == RowNumber(ids, b) :: a == b
  {
    forall a, b | a in ids && b in ids && RowNumber(ids, a) == RowNumber(ids, b) ensures a == b {
      RowNumbersIncrease(ids, a, b);
    }
  }

  /** `INSERT INTO skill_metadata SELECT ROW_NUMBER() ...`: one row per version. */
  function MetadataRows(t: Tables): (r: map<Id, Metadata>)
    ensures forall v | v in t.versions ::
      RowNumber(t.versions.Keys, v) in r && r[RowNumber(t.versions.Keys, v)] == t.versions[v].metadata
    ensures forall m | m in r :: exists v | v in t.versions :: RowNumber(t.versions.Keys, v) == m
  {
    NumbersAreDistinct(t.versions.Keys);
    map v | v in t.versions :: RowNumber(t.versions.Keys, v) := t.versions[v].metadata
  }

  function Downgraded(c: Canonical, num: Numeric): Legacy
    requires References(c.catalogue, c.rest)
  {
    var t, rest := c.catalogue, c.rest;
    var scores := ScoreColumns(rest.pairs, num);
    Legacy(
      WithVersions(t, NumberedVersions(t)),
      MetadataRows(t),
      rest,
      RestoredEdges(c.edges, scores, num),
      StarColumn(t, rest.stars),
      UsageColumn(t),
      SlugColumn(t.skills, rest.observations),
      scores,
      DimensionColumn(rest.embeddings))
  }

  /** The rows of `skill_metadata` after a downgrade are numbered without gap, and row k is the
      metadata of the k-th version in id order: none is shared, missing or orphaned. */
  lemma MetadataRowsAreABijection(t: Tables)
    ensures forall n: int :: n in MetadataRows(t) <==> 1 <= n <= |t.versions|
    ensures forall v, w | v in t.versions && w in t.versions ::
      RowNumber(t.versions.Keys, v) == RowNumber(t.versions.Keys, w) <==> v == w
  {
    hide RowNumber;
    var ids := t.versions.Keys;
    assert |ids| == |t.versions|;
    forall n: int ensures n in MetadataRows(t) <==> 1 <= n <= |t.versions| {
      if n in MetadataRows(t) {
        var v :| v in t.versions && RowNumber(ids, v) == n;
        RowNumbersIncrease(ids, v, v);
      }
      if 1 <= n <= |t.versions| {
        var v := EveryNumberIsUsed(ids, n);
      }
    }
    NumbersAreDistinct(ids);
  }

  // --- Round trips -----------------------------------------------------------------------------------------

  predicate HasRetiredEvidence(e: EdgeRow) {
    e.provenance == CoUsageDerived && e.evidence.Keys * RETIRED_KEYS != {}
  }

  lemma StrippedAfterRestored(e: EdgeRow, scores: map<CoUsage.Pair, (int, int)>, num: Numeric)
    ensures Stripped(Restored(e, scores, num)) == Stripped(e)
    ensures Stripped(e) == e <==> !HasRetiredEvidence(e)
  {
    if e.provenance == CoUsageDerived {
      var r := Restored(e, scores, num);
      assert r.evidence - RETIRED_KEYS == e.evidence - RETIRED_KEYS;
      assert r == e.(evidence := r.evidence);
      if e.evidence.Keys * RETIRED_KEYS == {} {
        forall k | k in e.evidence ensures k !in RETIRED_KEYS {
          assert k in RETIRED_KEYS ==> k in e.evidence.Keys * RETIRED_KEYS;
        }
        assert e.evidence - RETIRED_KEYS == e.evidence;
      } else {
        var k :| k in e.evidence && k in RETIRED_KEYS;
        assert k !in Stripped(e).evidence;
      }
    }
  }

  lemma EdgesRoundTripIff(edges: map<Id, EdgeRow>, scores: map<CoUsage.Pair, (int, int)>, num: Numeric)
    ensures StrippedEdges(RestoredEdges(edges, scores, num)) == edges
      <==> forall e | e in edges :: !HasRetiredEvidence(edges[e])
  {
    var back := StrippedEdges(RestoredEdges(edges, scores, num));
    forall e | e in edges
      ensures back[e] == Stripped(edges[e])
      ensures Stripped(edges[e]) == edges[e] <==> !HasRetiredEvidence(edges[e])
    {
      StrippedAfterRestored(edges[e], scores, num);
    }
    if e :| e in edges && HasRetiredEvidence(edges[e]) {
      StrippedAfterRestored(edges[e], scores, num);
      assert back[e] == Stripped(edges[e]);
    } else {
      forall e | e in edges ensures back[e] == edges[e] {
        assert !HasRetiredEvidence(edges[e]);
      }
      assert back.Keys == edges.Keys;
    }
  }

  lemma VersionsRoundTrip(t: Tables)
    ensures Joins(NumberedVersions(t), MetadataRows(t))
    ensures JoinedVersions(NumberedVersions(t), MetadataRows(t)) == t.versions
  {
    hide RowNumber;
  }

  /** Downgrading and upgrading again gives back the canonical tables, edge evidence included,
      exactly when no co-usage evidence carries a retired key. */
  lemma UpgradeUndoesDowngradeIff(c: Canonical, num: Numeric)
    requires CanonicalSchema(c)
    ensures EveryVersionJoins(Downgraded(c, num))
    ensures Upgraded(Downgraded(c, num)) == c <==> forall e | e in c.edges :: !HasRetiredEvidence(c.edges[e])
  {
    hide ForeignKeys, Joins, JoinedVersions, NumberedVersions, RestoredEdges, StrippedEdges, HasRetiredEvidence;
    VersionsRoundTrip(c.catalogue);
    EdgesRoundTripIff(c.edges, Downgraded(c, num).pairScores, num);
  }

  lemma UpgradedEdgesHaveNoRetiredEvidence(l: Legacy)
    requires EveryVersionJoins(l)
    ensures forall e | e in Upgraded(l).edges :: !HasRetiredEvidence(Upgraded(l).edges[e])
  {
    forall e | e in l.edges && l.edges[e].provenance == CoUsageDerived
      ensures Stripped(l.edges[e]).evidence.Keys * RETIRED_KEYS == {}
    {
    }
  }

  /** The evidence object that the co-usage sync writes; `instant` prints a timestamp. */
  function SyncEvidence(r: CoUsage.PairRow, instant: int -> Json): map<string, Json> {
    map["distinct_run_count" := Millionths(r.runCount), "co_usage_rate" := Millionths(r.rate),
      "lift_score" := Millionths(r.lift),
        "window_days" := Millionths(r.windowDays), "last_observed_at" := instant(r.lastObservedAt)]
  }

  /** A stored edge as the co-usage sync left it. */
  ghost predicate WrittenBySync(e: EdgeRow, edges: map<CoUsage.Pair, CoUsage.Edge>, instant: int -> Json) {
    && e.target.Some? && (e.source, e.target.value) in edges
    && var edge := edges[(e.source, e.target.value)];
       e.active == edge.active && e.confidence == Some(edge.confidence)
         && e.evidence == SyncEvidence(edge.evidence, instant)
  }

  lemma SyncEvidenceIsNotRetired(r: CoUsage.PairRow, instant: int -> Json)
    ensures SyncEvidence(r, instant).Keys * RETIRED_KEYS == {}
  {
    assert "observation_count"[0] == 'o' && "pmi_score"[0] == 'p';
    forall k | k in SyncEvidence(r, instant).Keys ensures k[0] != 'o' && k[0] != 'p' {
    }
  }

  /** Co-usage edges that come from an upgrade or from the sync never carry a retired key, so
      the round trip gives back every canonical state that the code writes. */
  lemma SyncedEdgesRoundTrip(c: Canonical, num: Numeric, l: Legacy, edges: map<CoUsage.Pair, CoUsage.Edge>,
      instant: int -> Json)
    requires CanonicalSchema(c) && EveryVersionJoins(l)
    requires forall e | e in c.edges && c.edges[e].provenance == CoUsageDerived ::
      WrittenBySync(c.edges[e], edges, instant)
        || (e in Upgraded(l).edges && c.edges[e].evidence == Upgraded(l).edges[e].evidence
                                                     && Upgraded(l).edges[e].provenance == CoUsageDerived)
    ensures EveryVersionJoins(Downgraded(c, num)) && Upgraded(Downgraded(c, num)) == c
  {
    hide CanonicalSchema, Upgraded, Downgraded, SyncEvidence, EveryVersionJoins;
    UpgradeUndoesDowngradeIff(c, num);
    UpgradedEdgesHaveNoRetiredEvidence(l);
    forall e | e in c.edges ensures !HasRetiredEvidence(c.edges[e]) {
      if c.edges[e].provenance == CoUsageDerived && WrittenBySync(c.edges[e], edges, instant) {
        SyncEvidenceIsNotRetired(edges[(c.edges[e].source, c.edges[e].target.value)].evidence, instant);
      }
    }
  }

  /** Nothing in the canonical schema forbids such a key, and with one the round trip loses it. */
  lemma ARetiredKeyIsLost(num: Numeric) returns (c: Canonical)
    ensures CanonicalSchema(c) && EveryVersionJoins(Downgraded(c, num)) && Upgraded(Downgraded(c, num)) != c
  {
    var skills := map[1 := SkillRow("left", 1, 0), 2 := SkillRow("right", 1, 0)];
    var t := EMPTY.(namespaces := map[1 := "public"], skills := skills);
    var edge := EdgeRow(1, None, Some(2), "right", RelatesToEdge, CoUsageDerived, true, Some(1),
      map["pmi_score" := Millionths(1)]);
    c := Canonical(t, Untouched({}, map[], map[], map[]), map[1 := edge]);
    assert "pmi_score" in edge.evidence.Keys * RETIRED_KEYS;
    assert HasRetiredEvidence(c.edges[1]);
    UpgradeUndoesDowngradeIff(c, num);
  }

  /** What a reader of versions joined with their metadata sees. */
  function JoinedView(l: Legacy): map<Id, VersionRow>
    requires EveryVersionJoins(l)
  {
    JoinedVersions(l.catalogue.versions, l.metadata)
  }

  /** Going up and down again may renumber and unshare metadata rows, but every version keeps its
      joined view. */
  lemma JoinedViewSurvives(l: Legacy, num: Numeric)
    requires EveryVersionJoins(l) && References(Upgraded(l).catalogue, l.rest)
    ensures EveryVersionJoins(Downgraded(Upgraded(l), num))
    ensures JoinedView(Downgraded(Upgraded(l), num)) == JoinedView(l)
  {
    VersionsRoundTrip(Upgraded(l).catalogue);
  }

  // --- Preflight after a downgrade -------------------------------------------------------------------------

  ghost predicate DocumentsMirror(t: Tables)
    requires ForeignKeys(t) && t.documents.Keys <= t.versions.Keys
  {
    forall d | d in t.documents :: t.documents[d] == Projection(t, d)
  }

  predicate NoBlankSelectors(selectors: map<Id, seq<SelectorRow>>) {
    forall v, r | v in selectors && r in selectors[v] :: !BlankSelector(r)
  }

  lemma DowngradeKeepsForeignKeys(c: Canonical, num: Numeric)
    requires References(c.catalogue, c.rest)
    ensures ForeignKeys(Downgraded(c, num).catalogue)
  {
  }

  lemma StaleAfterDowngradeIff(c: Canonical, num: Numeric, d: Id)
    requires References(c.catalogue, c.rest)
    ensures ForeignKeys(Downgraded(c, num).catalogue) && Downgraded(c, num).catalogue.documents == c.catalogue.documents
    ensures StaleDocument(Downgraded(c, num), d)
      <==> d in c.catalogue.documents && c.catalogue.documents[d] != Projection(c.catalogue, d)
  {
    DowngradeKeepsForeignKeys(c, num);
  }

  lemma NumberedMetadataIsClean(t: Tables)
    requires forall v | v in t.versions :: ValidMetadata(t.versions[v].metadata)
    ensures Joins(NumberedVersions(t), MetadataRows(t))
    ensures !HasOrphans(NumberedVersions(t), MetadataRows(t)) && !HasInvalidValues(NumberedVersions(t), MetadataRows(t))
  {
    hide RowNumber;
    var numbered := NumberedVersions(t);
    forall m | m in MetadataRows(t) ensures exists v :: v in numbered && numbered[v].metadata == m {
      var v :| v in t.versions && RowNumber(t.versions.Keys, v) == m;
      assert v in numbered && numbered[v].metadata == m;
    }
  }

  lemma RestoredEdgesAreClean(t: Tables, edges: map<Id, EdgeRow>, scores: map<CoUsage.Pair, (int, int)>, num: Numeric)
    requires forall e | e in edges :: GraphShape(edges[e]) && GraphReferences(t, edges[e])
    ensures !HasInvalidEdges(WithVersions(t, NumberedVersions(t)), RestoredEdges(edges, scores, num))
  {
    hide RowNumber;
    var u := WithVersions(t, NumberedVersions(t));
    forall e | e in edges
      ensures GraphShape(Restored(edges[e], scores, num)) && GraphReferences(u, Restored(edges[e], scores, num))
    {
      assert GraphShape(edges[e]) && GraphReferences(t, edges[e]);
    }
  }

  lemma InvalidSelectorsAreBlank(selectors: map<Id, seq<SelectorRow>>)
    requires SelectorShapes(selectors)
    ensures HasInvalidSelectors(selectors) <==> !NoBlankSelectors(selectors)
  {
    if v, r :| v in selectors && r in selectors[v] && BlankSelector(r) {
      assert HasInvalidSelectors(selectors);
    }
  }

  lemma KeptRowsAreClean(c: Canonical, num: Numeric)
    requires CanonicalSchema(c)
    ensures !HasInvalidSizes(c.catalogue.contents) && !HasDuplicatePositions(c.catalogue.selectors)
    ensures !HasInvalidSlugs(c.catalogue.skills, c.rest.observations,
      SlugColumn(c.catalogue.skills, c.rest.observations))
    ensures !HasInvalidEmbeddings(c.rest.embeddings, DimensionColumn(c.rest.embeddings))
    ensures !HasInvalidPairs(c.rest.pairs, ScoreColumns(c.rest.pairs, num))
  {
    hide UniquePositions, SelectorShapes, GraphReferences, ForeignKeys;
  }

  /** Each query looks at the columns it names. */
  lemma QueriesByColumn(l: Legacy, code: Code)
    requires ForeignKeys(l.catalogue) && code != StaleSearchDocument
    requires Joins(l.catalogue.versions, l.metadata)
    requires !HasOrphans(l.catalogue.versions, l.metadata) && !HasInvalidValues(l.catalogue.versions, l.metadata)
    requires !HasInvalidSizes(l.catalogue.contents) && !HasDuplicatePositions(l.catalogue.selectors)
    requires !HasInvalidSlugs(l.catalogue.skills, l.rest.observations, l.observationSlugs)
      && !HasInvalidEdges(l.catalogue, l.edges)
    requires !HasInvalidEmbeddings(l.rest.embeddings, l.dimensions) && !HasInvalidPairs(l.rest.pairs, l.pairScores)
    ensures Finds(l, code) <==> code == InvalidSelectorRows && HasInvalidSelectors(l.catalogue.selectors)
  {
    hide Joins, HasOrphans, HasInvalidValues, HasInvalidEdges, HasInvalidSizes, HasDuplicatePositions, HasInvalidSlugs,
      HasInvalidEmbeddings, HasInvalidPairs, HasInvalidSelectors, ForeignKeys;
  }

  lemma ChecksAfterDowngrade(c: Canonical, num: Numeric, code: Code)
    requires CanonicalSchema(c) && code != StaleSearchDocument
    ensures ForeignKeys(Downgraded(c, num).catalogue)
    ensures Finds(Downgraded(c, num), code) <==> code == InvalidSelectorRows && !NoBlankSelectors(c.catalogue.selectors)
  {
    DowngradeKeepsForeignKeys(c, num);
    NumberedMetadataIsClean(c.catalogue);
    RestoredEdgesAreClean(c.catalogue, c.edges, ScoreColumns(c.rest.pairs, num), num);
    InvalidSelectorsAreBlank(c.catalogue.selectors);
    KeptRowsAreClean(c, num);
    hide Finds, Joins, HasOrphans, HasInvalidValues, HasInvalidEdges, HasInvalidSizes, HasDuplicatePositions,
      HasInvalidSlugs, HasInvalidEmbeddings, HasInvalidPairs, HasInvalidSelectors, NumberedVersions, RestoredEdges,
      SlugColumn, ScoreColumns, DimensionColumn, UsageColumn, StarColumn, NoBlankSelectors, SelectorShapes, ForeignKeys;
    QueriesByColumn(Downgraded(c, num), code);
  }

  lemma DocumentCheckIff(c: Canonical, num: Numeric)
    requires CanonicalSchema(c)
    ensures ForeignKeys(Downgraded(c, num).catalogue)
    ensures Finds(Downgraded(c, num), StaleSearchDocument) <==> !DocumentsMirror(c.catalogue)
  {
    hide ForeignKeys, Projection, StaleDocument, Downgraded;
    DowngradeKeepsForeignKeys(c, num);
    var l := Downgraded(c, num);
    forall d ensures StaleDocument(l, d)
      <==> d in c.catalogue.documents && c.catalogue.documents[d] != Projection(c.catalogue, d)
    {
      StaleAfterDowngradeIff(c, num, d);
    }
    if !DocumentsMirror(c.catalogue) {
      var d :| d in c.catalogue.documents && c.catalogue.documents[d] != Projection(c.catalogue, d);
      StaleAfterDowngradeIff(c, num, d);
      assert StaleDocument(l, d);
    }
  }

  /** After a downgrade every preflight check of the next upgrade passes, except two that the
      canonical schema does not imply: search documents have to mirror their sources, and no
      selector may be blank. */
  lemma UpgradeIsPossibleAgainIff(c: Canonical, num: Numeric)
    requires CanonicalSchema(c)
    ensures ForeignKeys(Downgraded(c, num).catalogue)
    ensures Clear(Downgraded(c, num)) <==> DocumentsMirror(c.catalogue) && NoBlankSelectors(c.catalogue.selectors)
  {
    hide Finds, ForeignKeys, NoBlankSelectors, DocumentsMirror, SelectorShapes, Downgraded;
    DocumentCheckIff(c, num);
    forall code: Code | code != StaleSearchDocument
      ensures Finds(Downgraded(c, num), code)
        <==> code == InvalidSelectorRows && !NoBlankSelectors(c.catalogue.selectors)
    {
      ChecksAfterDowngrade(c, num, code);
    }
    assert Clear(Downgraded(c, num)) ==>
      !Finds(Downgraded(c, num), InvalidSelectorRows) && !Finds(Downgraded(c, num), StaleSearchDocument);
  }

  /** The rows of `skill_metadata` are numbered without gap in the order of the versions, each is
      joined by one version, and every version shows its metadata. */
  ghost predicate MetadataMovedOut(versions: map<Id, VersionRowWith<Id>>, metadata: map<Id, Metadata>, t: Tables) {
    && Joins(versions, metadata) && JoinedVersions(versions, metadata) == t.versions
    && (forall n: int :: n in metadata <==> 1 <= n <= |t.versions|)
    && (forall v, w | v in versions && w in versions :: versions[v].metadata < versions[w].metadata <==> v < w)
  }

  /** The metrics of a co-usage edge after a downgrade, read from the stored pair: the larger run count and the
      larger logarithm of a positive lift over its directions, or what the evidence records where neither
      direction is stored. */
  ghost predicate HasMetrics(e: EdgeRow, before: EdgeRow, pairs: map<CoUsage.Pair, CoUsage.PairRow>, num: Numeric)
    requires before.target.Some?
  {
    var there, back := (before.source, before.target.value), (before.target.value, before.source);
    var count := (p: CoUsage.Pair) => if p in pairs then pairs[p].runCount else 0;
    var pmi := (p: CoUsage.Pair) => if p in pairs && pairs[p].lift > 0 then num.ln(pairs[p].lift) else 0;
    && "observation_count" in e.evidence && "pmi_score" in e.evidence
    && (there in pairs && back in pairs ==>
          && e.evidence["observation_count"] == Number(VersionChecksum.Decimal(Max(count(there), count(back))))
          && e.evidence["pmi_score"] == Number(VersionChecksum.Decimal(Max(pmi(there), pmi(back)))))
    && (there in pairs && back !in pairs ==>
          && e.evidence["observation_count"] == Number(VersionChecksum.Decimal(count(there)))
          && e.evidence["pmi_score"] == Number(VersionChecksum.Decimal(pmi(there))))
    && (there !in pairs && back in pairs ==>
          && e.evidence["observation_count"] == Number(VersionChecksum.Decimal(count(back)))
          && e.evidence["pmi_score"] == Number(VersionChecksum.Decimal(pmi(back))))
    && (there !in pairs && back !in pairs ==>
          && e.evidence["observation_count"] == num.recorded(before.evidence).0
          && e.evidence["pmi_score"] == num.recorded(before.evidence).1)
  }

  ghost predicate SameButMetrics(e: EdgeRow, before: EdgeRow) {
    && e == before.(evidence := e.evidence)
    && forall k | k != "observation_count" && k != "pmi_score" ::
         (k in e.evidence <==> k in before.evidence) && (k in before.evidence ==> e.evidence[k] == before.evidence[k])
  }

  lemma RestoredIsSameButMetrics(e: EdgeRow, scores: map<CoUsage.Pair, (int, int)>, num: Numeric)
    ensures SameButMetrics(Restored(e, scores, num), e)
    ensures e.provenance == Authored ==> Restored(e, scores, num) == e
  {
    hide EdgeMetrics;
    var r := Restored(e, scores, num);
    assert r == e.(evidence := r.evidence);
  }

  lemma RestoredMetrics(e: EdgeRow, scores: map<CoUsage.Pair, (int, int)>, num: Numeric)
    requires e.provenance == CoUsageDerived && e.target.Some?
    ensures var r, metrics := Restored(e, scores, num), EdgeMetrics(e, scores, num);
      && "observation_count" in r.evidence && "pmi_score" in r.evidence
      && r.evidence["observation_count"] == metrics.0 && r.evidence["pmi_score"] == metrics.1
  {
    assert "observation_count"[0] != "pmi_score"[0];
  }

  lemma RestoredHasMetrics(e: EdgeRow, pairs: map<CoUsage.Pair, CoUsage.PairRow>, num: Numeric)
    requires e.provenance == CoUsageDerived && e.target.Some?
    ensures HasMetrics(Restored(e, ScoreColumns(pairs, num), num), e, pairs, num)
  {
    RestoredMetrics(e, ScoreColumns(pairs, num), num);
    hide Restored;
  }

  /** A downgrade writes the two metrics into the evidence of co-usage edges and changes nothing else of any
      edge. */
  lemma DowngradedEdge(c: Canonical, num: Numeric, id: Id)
    requires References(c.catalogue, c.rest) && id in c.edges
    ensures Downgraded(c, num).edges.Keys == c.edges.Keys
    ensures var e, before := Downgraded(c, num).edges[id], c.edges[id];
      && SameButMetrics(e, before) && (before.provenance == Authored ==> e == before)
      && (before.provenance == CoUsageDerived && before.target.Some? ==> HasMetrics(e, before, c.rest.pairs, num))
  {
    var before := c.edges[id];
    RestoredIsSameButMetrics(before, ScoreColumns(c.rest.pairs, num), num);
    if before.provenance == CoUsageDerived && before.target.Some? {
      RestoredHasMetrics(before, c.rest.pairs, num);
    }
    hide Restored, HasMetrics, SameButMetrics, References, NumberedVersions, MetadataRows;
  }

  lemma ScoresOfPairs(pairs: map<CoUsage.Pair, CoUsage.PairRow>, num: Numeric)
    ensures ScoreColumns(pairs, num).Keys == pairs.Keys
    ensures forall p | p in pairs ::
      ScoreColumns(pairs, num)[p] == (pairs[p].runCount, if pairs[p].lift > 0 then num.ln(pairs[p].lift) else 0)
  {
  }

  /** The derived columns of pairs and embeddings after a downgrade. */
  lemma DowngradedScores(c: Canonical, num: Numeric)
    requires References(c.catalogue, c.rest)
    ensures var l, pairs := Downgraded(c, num), c.rest.pairs;
      && l.pairScores.Keys == pairs.Keys
      && (forall p | p in pairs ::
            l.pairScores[p] == (pairs[p].runCount, if pairs[p].lift > 0 then num.ln(pairs[p].lift) else 0))
      && l.dimensions.Keys == c.rest.embeddings.Keys && forall k | k in l.dimensions :: l.dimensions[k] == 1536
  {
    ScoresOfPairs(c.rest.pairs, num);
    hide References, NumberedVersions, MetadataRows, RestoredEdges, ScoreColumns, StarColumn, UsageColumn, SlugColumn;
  }

  /** An upgrade drops the two metrics from the evidence of co-usage edges and changes nothing else of any
      edge. */
  lemma UpgradedEdge(l: Legacy, id: Id)
    requires EveryVersionJoins(l) && id in l.edges
    ensures Upgraded(l).edges.Keys == l.edges.Keys
    ensures var e, before := Upgraded(l).edges[id], l.edges[id];
      && (before.provenance == Authored ==> e == before)
      && e == before.(evidence := e.evidence)
      && (before.provenance == CoUsageDerived ==>
            forall k ::
              && (k in e.evidence <==> k in before.evidence && k != "observation_count" && k != "pmi_score")
              && (k in e.evidence ==> e.evidence[k] == before.evidence[k]))
  {
  }

  /** The users with a star on a skill. */
  ghost function Fans(stars: set<(string, Id)>, skill: Id): set<string> {
    set s | s in stars && s.1 == skill :: s.0
  }

  lemma StarsAreFans(stars: set<(string, Id)>, skill: Id)
    ensures |StarsOf(stars, skill)| == |Fans(stars, skill)|
  {
    var f := (s: (string, Id)) => s.0;
    InjectiveImageSize(f, StarsOf(stars, skill));
    var image := ImageOf(f, StarsOf(stars, skill));
    assert forall s | s in StarsOf(stars, skill) :: s in stars && s.1 == skill && f(s) == s.0;
    forall u | u in Fans(stars, skill) ensures u in image {
      var s :| s in stars && s.1 == skill && s.0 == u;
      assert s in StarsOf(stars, skill) && f(s) == u;
    }
    assert image == Fans(stars, skill);
  }

  lemma StarColumnCountsFans(t: Tables, stars: set<(string, Id)>)
    ensures StarColumn(t, stars).Keys == t.skills.Keys
    ensures forall s | s in t.skills :: StarColumn(t, stars)[s] == |Fans(stars, s)|
  {
    forall s | s in t.skills ensures StarColumn(t, stars)[s] == |Fans(stars, s)| {
      StarsAreFans(stars, s);
    }
  }

  /** Counters count, and copied columns copy, the present rows. */
  ghost predicate ColumnsRefilled(l: Legacy, c: Canonical)
    requires References(c.catalogue, c.rest)
  {
    var t := c.catalogue;
    && l.starCounts.Keys == t.skills.Keys && (forall s | s in t.skills :: l.starCounts[s] == |Fans(c.rest.stars, s)|)
    && l.usageCounts.Keys == t.documents.Keys
       && (forall d | d in t.documents :: l.usageCounts[d] == t.skills[t.versions[d].skill].installs)
    && l.observationSlugs.Keys == c.rest.observations.Keys
    && (forall o | o in c.rest.observations :: l.observationSlugs[o] == t.skills[c.rest.observations[o].1].slug)
  }

  ghost predicate OtherTablesKept(l: Legacy, c: Canonical) {
    var t, u := c.catalogue, l.catalogue;
    && u.namespaces == t.namespaces && u.packs == t.packs && u.skills == t.skills
    && u.contents == t.contents && u.selectors == t.selectors && u.documents == t.documents
    && l.rest == c.rest
    && l.edges.Keys == c.edges.Keys && forall e | e in c.edges :: Stripped(l.edges[e]) == Stripped(c.edges[e])
  }

  lemma NumbersFollowIds(t: Tables)
    ensures NumberedVersions(t).Keys == t.versions.Keys
    ensures forall v, w | v in t.versions && w in t.versions ::
      NumberedVersions(t)[v].metadata < NumberedVersions(t)[w].metadata <==> v < w
  {
    hide RowNumber;
    forall v, w | v in t.versions && w in t.versions
      ensures RowNumber(t.versions.Keys, v) < RowNumber(t.versions.Keys, w) <==> v < w
    {
      RowNumbersIncrease(t.versions.Keys, v, w);
    }
  }

  lemma DowngradeMovesMetadataOut(t: Tables)
    ensures MetadataMovedOut(NumberedVersions(t), MetadataRows(t), t)
  {
    VersionsRoundTrip(t);
    MetadataRowsAreABijection(t);
    NumbersFollowIds(t);
    hide RowNumber, NumberedVersions, MetadataRows, Joins, JoinedVersions;
  }

  lemma DowngradeShape(c: Canonical, num: Numeric)
    requires References(c.catalogue, c.rest)
    ensures Downgraded(c, num).catalogue.versions == NumberedVersions(c.catalogue)
      && Downgraded(c, num).metadata == MetadataRows(c.catalogue)
  {
  }

  lemma DowngradeRefillsColumns(c: Canonical, num: Numeric)
    requires References(c.catalogue, c.rest)
    ensures ColumnsRefilled(Downgraded(c, num), c)
  {
    StarColumnCountsFans(c.catalogue, c.rest.stars);
    hide StarColumn, StarsOf, Fans, NumberedVersions, MetadataRows, RestoredEdges;
  }

  lemma DowngradeKeepsOtherTables(c: Canonical, num: Numeric)
    requires References(c.catalogue, c.rest)
    ensures OtherTablesKept(Downgraded(c, num), c)
  {
    hide Restored, Stripped, NumberedVersions, MetadataRows, StarColumn, UsageColumn, SlugColumn, References;
    forall e | e in c.edges
      ensures Stripped(Restored(c.edges[e], ScoreColumns(c.rest.pairs, num), num)) == Stripped(c.edges[e])
    {
      StrippedAfterRestored(c.edges[e], ScoreColumns(c.rest.pairs, num), num);
    }
  }

  /** Whether the next upgrade is possible, and whether it restores the canonical tables. */
  ghost predicate WayBack(l: Legacy, c: Canonical)
    requires ForeignKeys(l.catalogue) && References(c.catalogue, c.rest)
  {
    && (Clear(l) <==> DocumentsMirror(c.catalogue) && NoBlankSelectors(c.catalogue.selectors))
    && EveryVersionJoins(l) && (Upgraded(l) == c <==> forall e | e in c.edges :: !HasRetiredEvidence(c.edges[e]))
  }

  lemma WayBackAfterDowngrade(c: Canonical, num: Numeric)
    requires References(c.catalogue, c.rest) && CanonicalSchema(c)
    ensures var l := Downgraded(c, num); ForeignKeys(l.catalogue) && WayBack(l, c)
  {
    hide Clear, CanonicalSchema, DocumentsMirror, Upgraded, Downgraded, HasRetiredEvidence, NoBlankSelectors,
      ForeignKeys, EveryVersionJoins;
    UpgradeIsPossibleAgainIff(c, num);
    UpgradeUndoesDowngradeIff(c, num);
  }

  /** What a downgrade gives the reader of the older schema. */
  lemma WhatADowngradeGives(c: Canonical, num: Numeric)
    requires References(c.catalogue, c.rest)
    ensures var l := Downgraded(c, num);
      && ForeignKeys(l.catalogue) && MetadataMovedOut(l.catalogue.versions, l.metadata, c.catalogue)
         && ColumnsRefilled(l, c) && OtherTablesKept(l, c)
      && (CanonicalSchema(c) ==> WayBack(l, c))
  {
    hide *;
    DowngradeKeepsForeignKeys(c, num);
    DowngradeShape(c, num);
    DowngradeMovesMetadataOut(c.catalogue);
    DowngradeRefillsColumns(c, num);
    DowngradeKeepsOtherTables(c, num);
    if CanonicalSchema(c) {
      WayBackAfterDowngrade(c, num);
    }
  }

  /** `skill_versions` once revision 0014 has dropped its assessments. */
  function WithoutAssessments(t: Tables): Tables {
    WithVersions(t, map v | v in t.versions :: t.versions[v].(metadata := t.versions[v].metadata.(assessment := None)))
  }

  lemma MirrorIsAgreement(t: Tables)
    requires CatalogueLaws.Sound(t)
    ensures var u := WithoutAssessments(t);
      && ForeignKeys(u) && u.documents.Keys <= u.versions.Keys
      && (DocumentsMirror(u) <==> forall v | v in t.versions :: CatalogueLaws.Agrees(t, v))
  {
    var u := WithoutAssessments(t);
    forall v | v in t.versions ensures Projection(u, v) == Projection(t, v) {
    }
  }

  /** Of a catalogue that any run of transactions has produced, the next upgrade after a downgrade
      is blocked by a stale search document exactly when a version was published under another
      namespace than its skill's and the skill has not been moved since. */
  lemma MisfiledDocumentsBlockTheUpgradeIff(states: seq<Tables>, steps: seq<Step>, n: nat, c: Canonical, num: Numeric)
    requires Run(states, steps) && n < |states|
    requires CanonicalSchema(c) && c.catalogue == WithoutAssessments(states[n])
    ensures ForeignKeys(Downgraded(c, num).catalogue)
    ensures Finds(Downgraded(c, num), StaleSearchDocument)
      <==> exists v | v in states[n].versions :: CatalogueHistory.Misfiled(states, steps, n, v)
  {
    hide Finds, Downgraded, CatalogueHistory.Misfiled, CatalogueLaws.Agrees, Next, DocumentsMirror;
    CatalogueLaws.RunsAreSound(states, steps, n);
    DocumentCheckIff(c, num);
    MirrorIsAgreement(states[n]);
    forall v | v in states[n].versions
      ensures CatalogueLaws.Agrees(states[n], v) <==> !CatalogueHistory.Misfiled(states, steps, n, v)
    {
      CatalogueHistory.DocumentAgreesIff(states, steps, n, v);
    }
  }

  // --- The revision as it runs --------------------------------------------------------------------------

  /** The preflight queries in the order they are run. */
  const CHECKS: seq<Code> := [
    OrphanMetadata, VersionWithoutMetadata, InvalidMetadataValues, InvalidContentSize, StaleSearchDocument,
    DuplicateSelectorPositions, InvalidSelectorRows, InvalidObservationSlug, InvalidGraphIdentifiers,
    InvalidEmbeddingRows, InvalidCoUsageRows]

  lemma EveryCodeIsChecked(code: Code)
    ensures exists i | 0 <= i < |CHECKS| :: CHECKS[i] == code
  {
    var i := match code
      case OrphanMetadata =>
      0 case VersionWithoutMetadata => 1 case InvalidMetadataValues => 2 case InvalidContentSize => 3
      case StaleSearchDocument => 4 case DuplicateSelectorPositions => 5 case InvalidSelectorRows => 6
      case InvalidObservationSlug =>
      7 case InvalidGraphIdentifiers => 8 case InvalidEmbeddingRows => 9 case InvalidCoUsageRows => 10;
    assert CHECKS[i] == code;
  }

  /** The first query that returns a row names the block. */
  method AssertUpgradePreconditions(l: Legacy) returns (blocked: Option<Code>)
    requires ForeignKeys(l.catalogue)
    ensures blocked.None? <==> Clear(l)
    ensures blocked.Some? ==> exists i | 0 <= i < |CHECKS| ::
      CHECKS[i] == blocked.value && Finds(l, CHECKS[i]) && forall j | 0 <= j < i :: !Finds(l, CHECKS[j])
  {
    var i := 0;
    while i < |CHECKS|
      invariant 0 <= i <= |CHECKS|
      invariant forall j | 0 <= j < i :: !Finds(l, CHECKS[j])
    {
      if Finds(l, CHECKS[i]) {
        return Some(CHECKS[i]);
      }
      i := i + 1;
    }
    forall code: Code ensures !Finds(l, code) {
      EveryCodeIsChecked(code);
    }
    blocked := None;
  }

  datatype Schema = Before(legacy: Legacy) | After(canonical: Canonical)

  /** The statements of the downgrade, in the order they are run. */
  method RunDowngrade(c: Canonical, num: Numeric) returns (l: Legacy)
    requires References(c.catalogue, c.rest)
    ensures l == Downgraded(c, num)
  {
    var t := c.catalogue;
    var scores := ScoreColumns(c.rest.pairs, num);
    var edges := RestoredEdges(c.edges, scores, num);
    var slugs := SlugColumn(t.skills, c.rest.observations);
    var usage := UsageColumn(t);
    var starCounts := StarColumn(t, c.rest.stars);
    var metadata := MetadataRows(t);
    var versions := NumberedVersions(t);
    l := Legacy(WithVersions(t, versions), metadata, c.rest, edges, starCounts, usage, slugs, scores,
      DimensionColumn(c.rest.embeddings));
  }

  class Database {
    var schema: Schema

    /** Blocked upgrades roll back; others land in a state that meets every new constraint. */
    method Upgrade() returns (blocked: Option<Code>)
      requires schema.Before? && References(schema.legacy.catalogue, schema.legacy.rest)
      requires forall m | m in schema.legacy.metadata :: schema.legacy.metadata[m].assessment.None?
      modifies this
      ensures blocked.None? <==> Clear(old(schema.legacy))
      ensures blocked.Some? ==> schema == old(schema)
      ensures blocked.None? ==>
        EveryVersionJoins(old(schema.legacy)) && schema == After(Upgraded(old(schema.legacy)))
          && CanonicalSchema(schema.canonical)
    {
      var l := schema.legacy;
      blocked := AssertUpgradePreconditions(l);
      if blocked.Some? {
        return;
      }
      ClearPreflightSuffices(l);
      hide Finds, CanonicalSchema, References;
      var versions := JoinedVersions(l.catalogue.versions, l.metadata);
      var edges := map e | e in l.edges :: Stripped(l.edges[e]);
      schema := After(Canonical(WithVersions(l.catalogue, versions), l.rest, edges));
    }

    method Downgrade(num: Numeric)
      requires schema.After? && References(schema.canonical.catalogue, schema.canonical.rest)
      modifies this
      ensures schema == Before(Downgraded(old(schema.canonical), num))
      ensures var l, c := schema.legacy, old(schema.canonical);
        && ForeignKeys(l.catalogue) && MetadataMovedOut(l.catalogue.versions, l.metadata, c.catalogue)
           && ColumnsRefilled(l, c) && OtherTablesKept(l, c)
        && (CanonicalSchema(c) ==> WayBack(l, c))
    {
      hide *;
      ghost var c := schema.canonical;
      WhatADowngradeGives(c, num);
      var l := RunDowngrade(schema.canonical, num);
      schema := Before(l);
    }
  }
}
