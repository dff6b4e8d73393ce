/** The preflight queries of revision 0013, row by row: what each of them finds, in the columns it names. */
module MigrationQueries {
  import opened Catalogue
  import opened Collections
  import opened Migration0013
  import opened Selectors
  import CanonicalJson
  import CoUsage
  import Embeddings

  // --- One row each -------------------------------------------------------------------------------

  ghost predicate OnlySpaces(s: string) {
    forall c | c in s :: c == ' '
  }

  ghost predicate BlankIfPresent(o: Option<string>) {
    o.Some? && OnlySpaces(o.value)
  }

  /** A dependency names a version or a constraint, not both, and neither is blank; every other selector names
      a version that is not blank, and nothing else. */
  ghost predicate BadSelector(r: SelectorRow) {
    || OnlySpaces(r.selector.slug)
    || BlankIfPresent(r.selector.version)
    || (r.edgeType == DependsOn && BlankIfPresent(r.selector.versionConstraint))
    || (r.edgeType == DependsOn && r.selector.version.Some? && r.selector.versionConstraint.Some?)
    || (r.edgeType == DependsOn && r.selector.version.None? && r.selector.versionConstraint.None?)
    || (r.edgeType != DependsOn && r.selector.version.None?)
    || (r.edgeType != DependsOn && r.selector.versionConstraint.Some?)
    || (r.edgeType != DependsOn && r.selector.optional.Some?)
    || (r.edgeType != DependsOn && |r.selector.markers| > 0)
  }

  ghost predicate BadEdge(t: TablesWith<Id>, e: EdgeRow) {
    || (e.sourceVersion.Some?
        && !(e.sourceVersion.value in t.versions && t.versions[e.sourceVersion.value].skill == e.source))
    || (e.target.Some? && !(e.target.value in t.skills && t.skills[e.target.value].slug == e.targetSlug))
    || (e.provenance == Authored && (e.sourceVersion.None? || e.edgeType == RelatesToEdge))
    || (e.provenance == CoUsageDerived
        && (e.sourceVersion.Some? || e.edgeType != RelatesToEdge || e.target.None? || e.source >= e.target.value))
  }

  ghost predicate BadPair(p: CoUsage.Pair, r: CoUsage.PairRow, score: Option<(int, int)>) {
    || p.0 == p.1 || (score.Some? && score.value.0 < 0) || r.runCount < 0
    || r.rate < 0 || r.rate > 1_000_000 || r.lift < 0 || r.windowDays <= 0
  }

  /** A score outside zero to one. */
  ghost predicate BadScore(o: Option<CanonicalJson.Lexeme>) {
    o.Some? && !PrintsZeroToOne(o.value)
  }

  ghost predicate BadMetadata(m: Metadata) {
    || (m.tokenEstimate.Some? && m.tokenEstimate.value < 0)
    || BadScore(m.maturityScore) || BadScore(m.securityScore) || BadScore(m.overallScore)
  }

  /** Some column of a search document that differs from the row it copies. */
  ghost predicate Differs(t: TablesWith<Id>, metadata: map<Id, Metadata>, d: Id)
    requires ForeignKeys(t) && d in t.documents && d in t.versions && t.versions[d].metadata in metadata
  {
    var document, row := t.documents[d], t.versions[d];
    var skill, facts := t.skills[row.skill], metadata[row.metadata];
    || document.slug != skill.slug || document.namespace != t.namespaces[skill.namespace]
    || document.version != row.version || document.publishedAt != row.publishedAt || document.origin != row.origin
    || document.lifecycle != row.lifecycle || document.trustTier != row.trustTier
    || document.reviewState != row.reviewState || document.channel != row.channel
    || document.name != facts.name || document.description != facts.description || document.tags != facts.tags
    || document.pack != (if row.pack.Some? then Some(t.packs[row.pack.value].slug) else None)
    || document.contentSize != t.contents[row.content].size
  }

  // --- The queries --------------------------------------------------------------------------------

  /** What a query looks for. */
  ghost predicate Hit(l: Legacy, code: Code)
    requires ForeignKeys(l.catalogue)
  {
    var t := l.catalogue;
    match code
    case OrphanMetadata => exists m | m in l.metadata :: forall v | v in t.versions :: t.versions[v].metadata != m
    case VersionWithoutMetadata => exists v | v in t.versions :: t.versions[v].metadata !in l.metadata
    case InvalidMetadataValues =>
      exists v | v in t.versions ::
        t.versions[v].metadata in l.metadata && BadMetadata(l.metadata[t.versions[v].metadata])
    case InvalidContentSize => exists x | x in t.contents :: t.contents[x].size != |t.contents[x].payload|
    case StaleSearchDocument =>
      exists d | d in t.documents && d in t.versions && t.versions[d].metadata in l.metadata ::
        Differs(t, l.metadata, d)
    case DuplicateSelectorPositions =>
      exists v, i, j | v in t.selectors && 0 <= i < j < |t.selectors[v]| ::
        t.selectors[v][i].edgeType == t.selectors[v][j].edgeType
          && t.selectors[v][i].ordinal == t.selectors[v][j].ordinal
    case InvalidSelectorRows => exists v, r | v in t.selectors && r in t.selectors[v] :: BadSelector(r)
    case InvalidObservationSlug =>
      exists o | o in l.rest.observations && o in l.observationSlugs ::
        l.rest.observations[o].1 in t.skills && l.observationSlugs[o] != t.skills[l.rest.observations[o].1].slug
    case InvalidGraphIdentifiers => exists e | e in l.edges :: BadEdge(t, l.edges[e])
    case InvalidEmbeddingRows =>
      exists k | k in l.rest.embeddings ::
        || (k in l.dimensions && l.dimensions[k] != 1536)
        || (l.rest.embeddings[k].status == Embeddings.Indexed
            && (l.rest.embeddings[k].vector.None? || l.rest.embeddings[k].indexedAt.None?))
    case InvalidCoUsageRows =>
      exists p | p in l.rest.pairs ::
        BadPair(p, l.rest.pairs[p], if p in l.pairScores then Some(l.pairScores[p]) else None)
  }

  lemma BlankIff(s: string)
    ensures Blank(s) <==> OnlySpaces(s)
  {
    if Blank(s) {
      forall c | c in s ensures c == ' ' {
        var i :| 0 <= i < |s| && s[i] == c;
      }
    }
    assert forall i | 0 <= i < |s| :: s[i] in s;
  }

  lemma BadSelectorIff(r: SelectorRow)
    ensures BadSelector(r) <==> BlankSelector(r) || !SelectorShape(r)
  {
    BlankIff(r.selector.slug);
    if r.selector.version.Some? {
      BlankIff(r.selector.version.value);
    }
    if r.selector.versionConstraint.Some? {
      BlankIff(r.selector.versionConstraint.value);
    }
    hide Blank, OnlySpaces;
  }

  lemma SelectorQuery(selectors: map<Id, seq<SelectorRow>>)
    ensures HasInvalidSelectors(selectors) <==> exists v, r | v in selectors && r in selectors[v] :: BadSelector(r)
    ensures HasDuplicatePositions(selectors) <==>
      exists v, i, j | v in selectors && 0 <= i < j < |selectors[v]| ::
        selectors[v][i].edgeType == selectors[v][j].edgeType && selectors[v][i].ordinal == selectors[v][j].ordinal
  {
    hide BadSelector, BlankSelector, SelectorShape;
    forall r ensures BadSelector(r) <==> BlankSelector(r) || !SelectorShape(r) {
      BadSelectorIff(r);
    }
    if v, r :| v in selectors && r in selectors[v] && BadSelector(r) {
      assert BlankSelector(r) || !SelectorShape(r);
    }
    if HasDuplicatePositions(selectors) {
      var v :| v in selectors && !UniquePositions(selectors[v]);
      var i, j :| 0 <= i < j < |selectors[v]| && selectors[v][i].edgeType == selectors[v][j].edgeType
        && selectors[v][i].ordinal == selectors[v][j].ordinal;
    }
  }

  lemma EdgeQuery(t: TablesWith<Id>, edges: map<Id, EdgeRow>)
    ensures HasInvalidEdges(t, edges) <==> exists e | e in edges :: BadEdge(t, edges[e])
  {
    forall e | e in edges ensures BadEdge(t, edges[e]) <==> !GraphShape(edges[e]) || !GraphReferences(t, edges[e]) {
    }
  }

  lemma MetadataQuery(versions: map<Id, VersionRowWith<Id>>, metadata: map<Id, Metadata>)
    ensures HasInvalidValues(versions, metadata) <==>
      exists v | v in versions :: versions[v].metadata in metadata && BadMetadata(metadata[versions[v].metadata])
  {
    forall m: Metadata ensures BadMetadata(m) <==> !ValidMetadata(m) {
    }
  }

  lemma StaleIff(l: Legacy, d: Id)
    requires var t := l.catalogue;
      ForeignKeys(t) && d in t.documents && d in t.versions && t.versions[d].metadata in l.metadata
    ensures StaleDocument(l, d) <==> Differs(l.catalogue, l.metadata, d)
  {
    assert l.catalogue.versions[d].pack.Some? ==> l.catalogue.versions[d].pack.value in l.catalogue.packs;
  }

  lemma DocumentQuery(l: Legacy)
    requires ForeignKeys(l.catalogue)
    ensures (exists d | d in l.catalogue.documents :: StaleDocument(l, d)) <==> Hit(l, StaleSearchDocument)
  {
    var t := l.catalogue;
    forall d | d in t.documents && d in t.versions && t.versions[d].metadata in l.metadata
      ensures StaleDocument(l, d) <==> Differs(t, l.metadata, d)
    {
      StaleIff(l, d);
    }
    hide Differs, ForeignKeys;
  }

  lemma PairQuery(pairs: map<CoUsage.Pair, CoUsage.PairRow>, scores: map<CoUsage.Pair, (int, int)>)
    ensures HasInvalidPairs(pairs, scores) <==>
      exists p | p in pairs :: BadPair(p, pairs[p], if p in scores then Some(scores[p]) else None)
  {
    forall p | p in pairs
      ensures BadPair(p, pairs[p], if p in scores then Some(scores[p]) else None)
        <==> !PairShape(p, pairs[p]) || (p in scores && scores[p].0 < 0)
    {
    }
  }

  /** Each preflight query returns a row exactly when there is one of the kind it looks for. */
  lemma QueriesFind(l: Legacy, code: Code)
    requires ForeignKeys(l.catalogue)
    ensures Finds(l, code) <==> Hit(l, code)
  {
    match code
    case InvalidMetadataValues => MetadataQuery(l.catalogue.versions, l.metadata);
    case StaleSearchDocument => DocumentQuery(l);
    case DuplicateSelectorPositions => SelectorQuery(l.catalogue.selectors);
    case InvalidSelectorRows => SelectorQuery(l.catalogue.selectors);
    case InvalidGraphIdentifiers => EdgeQuery(l.catalogue, l.edges);
    case InvalidCoUsageRows => PairQuery(l.rest.pairs, l.pairScores);
    case _ =>
  }

  /** How floating-point scores print, inside and outside the band from zero to one. */
  lemma ScoresInBand(l: CanonicalJson.Lexeme)
    ensures l in {"0.0", "0.25", "1.0", "-0.0", "1e-05", "2.5e-07"} ==> PrintsZeroToOne(l)
    ensures l in {"1.5", "2.0", "10.0", "-0.5", "-1.0", "-1e-05", "1e+16"} ==> !PrintsZeroToOne(l)
  {
    assert l == "1e-05" ==> l[1] == 'e' && l[2] == '-';
    assert l == "2.5e-07" ==> l[4] == '-' && l[3] == 'e';
    assert l == "1e+16" ==> l[2] == '+' && forall i | 0 <= i < |l| :: l[i] == 'e' ==> i == 1;
    assert |"10.0"| != |"1.0"| && "1.5"[2] != "1.0"[2] && "-0.5"[3] != "-0.0"[3] && "-1.0"[1] != "-0.0"[1];
    assert |"1e+16"| != |"1.0"| && |"-1e-05"| != |"-0.0"| && "2.0"[0] != "1.0"[0];
  }
}
