/** The catalogue tables and what each committed transaction does to them. */
module Catalogue {
  import opened Collections
  import opened Governance
  import opened Hashing
  import opened Selectors
  import opened VersionChecksum

  type Id = int

  datatype Origin = InternalArtifact | ImportedArtifact | VerifiedArtifact | RestrictedArtifact

  datatype SkillRow = SkillRow(slug: string, namespace: Id, installs: nat)

  datatype PackRow = PackRow(slug: string, rules: string)

  datatype ContentRow = ContentRow(payload: string, size: nat, digest: Digest)

  /** Since revision 0013 the metadata columns are in the version row itself; before it the row
      held the id of a row of `skill_metadata`. */
  datatype VersionRowWith<M> = VersionRow(
    skill: Id,
    version: string,
    content: Id,
    metadata: M,
    checksum: Digest,
    provenance: Option<Provenance>,
    origin: Origin,
    publishedAt: int,
    lifecycle: Lifecycle,
    trustTier: TrustTier,
    reviewState: ReviewState,
    channel: Channel,
    pack: Option<Id>)

  type VersionRow = VersionRowWith<Metadata>

  /** `skill_search_documents`: a denormalized copy, one row per version. */
  datatype Document = Document(
    slug: string,
    version: string,
    name: string,
    description: Option<string>,
    tags: seq<string>,
    lifecycle: Lifecycle,
    trustTier: TrustTier,
    namespace: string,
    origin: Origin,
    reviewState: ReviewState,
    channel: Channel,
    pack: Option<string>,
    publishedAt: int,
    contentSize: nat)

  datatype TablesWith<M> = Tables(
    namespaces: map<Id, string>,
    packs: map<Id, PackRow>,
    skills: map<Id, SkillRow>,
    contents: map<Id, ContentRow>,
    versions: map<Id, VersionRowWith<M>>,
    selectors: map<Id, seq<SelectorRow>>,
    documents: map<Id, Document>)

  type Tables = TablesWith<Metadata>

  const EMPTY: Tables := Tables(map[], map[], map[], map[], map[], map[], map[])

  // --- Lookups by public name ---------------------------------------------------------------------

  ghost function NamespaceOf(t: Tables, slug: string): (r: Option<Id>)
    ensures r.Some? ==> r.value in t.namespaces && t.namespaces[r.value] == slug
    ensures r.None? ==> forall n :: !(n in t.namespaces && t.namespaces[n] == slug)
  {
    if exists n :: n in t.namespaces && t.namespaces[n] == slug then
      var n :| n in t.namespaces && t.namespaces[n] == slug; Some(n)
    else None
  }

  ghost function PackOf(t: Tables, slug: string): (r: Option<Id>)
    ensures r.Some? ==> r.value in t.packs && t.packs[r.value].slug == slug
    ensures r.None? ==> forall p :: !(p in t.packs && t.packs[p].slug == slug)
  {
    if exists p :: p in t.packs && t.packs[p].slug == slug then
      var p :| p in t.packs && t.packs[p].slug == slug; Some(p)
    else None
  }

  ghost function SkillOf(t: Tables, slug: string): (r: Option<Id>)
    ensures r.Some? ==> r.value in t.skills && t.skills[r.value].slug == slug
    ensures r.None? ==> forall s :: !(s in t.skills && t.skills[s].slug == slug)
  {
    if exists s :: s in t.skills && t.skills[s].slug == slug then
      var s :| s in t.skills && t.skills[s].slug == slug; Some(s)
    else None
  }

  ghost function ContentOf(t: Tables, digest: Digest): (r: Option<Id>)
    ensures r.Some? ==> r.value in t.contents && t.contents[r.value].digest == digest
    ensures r.None? ==> forall c :: !(c in t.contents && t.contents[c].digest == digest)
  {
    if exists c :: c in t.contents && t.contents[c].digest == digest then
      var c :| c in t.contents && t.contents[c].digest == digest; Some(c)
    else None
  }

  predicate Names(t: Tables, v: Id, slug: string, version: string) {
    v in t.versions && t.versions[v].version == version
    && t.versions[v].skill in t.skills && t.skills[t.versions[v].skill].slug == slug
  }

  ghost function VersionOf(t: Tables, slug: string, version: string): (r: Option<Id>)
    ensures r.Some? ==> Names(t, r.value, slug, version)
    ensures r.None? ==> forall v :: !Names(t, v, slug, version)
  {
    if exists v :: Names(t, v, slug, version) then
      var v :| Names(t, v, slug, version); Some(v)
    else None
  }

  // --- Constraints of the schema ------------------------------------------------------------------

  predicate ForeignKeys<M>(t: TablesWith<M>) {
    && (forall s | s in t.skills :: t.skills[s].namespace in t.namespaces)
    && (forall v | v in t.versions ::
          && t.versions[v].skill in t.skills
          && t.versions[v].content in t.contents
          && (t.versions[v].pack.Some? ==> t.versions[v].pack.value in t.packs))
  }

  ghost predicate UniqueNames(t: Tables) {
    && (forall m, n | m in t.namespaces && n in t.namespaces && t.namespaces[m] == t.namespaces[n] :: m == n)
    && (forall p, q | p in t.packs && q in t.packs && t.packs[p].slug == t.packs[q].slug :: p == q)
    && (forall r, s | r in t.skills && s in t.skills && t.skills[r].slug == t.skills[s].slug :: r == s)
    && (forall c, d | c in t.contents && d in t.contents && t.contents[c].digest == t.contents[d].digest :: c == d)
  }

  ghost predicate UniqueCoordinates(t: Tables) {
    forall v, w | v in t.versions && w in t.versions
      && t.versions[v].skill == t.versions[w].skill && t.versions[v].version == t.versions[w].version :: v == w
  }

  ghost predicate Schema(t: Tables) {
    ForeignKeys(t) && UniqueNames(t) && UniqueCoordinates(t)
  }

  // --- The search document of a version -----------------------------------------------------------

  /** The left join with `policy_packs`. */
  function PackSlug<M>(t: TablesWith<M>, pack: Option<Id>): Option<string> {
    if pack.Some? && pack.value in t.packs then Some(t.packs[pack.value].slug) else None
  }

  /** What a version's document should say, read from the authoritative rows. */
  ghost function Projection(t: Tables, v: Id): Document
    requires ForeignKeys(t) && v in t.versions
  {
    var row := t.versions[v];
    var skill := t.skills[row.skill];
    Document(skill.slug, row.version, row.metadata.name, row.metadata.description, row.metadata.tags,
             row.lifecycle, row.trustTier, t.namespaces[skill.namespace], row.origin, row.reviewState, row.channel,
             PackSlug(t, row.pack), row.publishedAt, t.contents[row.content].size)
  }

  /** `build_search_document`: from the publish record alone. */
  function BuildSearchDocument(r: CreateRecord, now: int): Document {
    Document(r.facts.slug, r.facts.version, r.facts.metadata.name, r.facts.metadata.description, r.facts.metadata.tags,
             Published, r.facts.trustTier, r.facts.namespace, r.origin, r.facts.reviewState, r.facts.channel,
             r.facts.policyPackSlug, now, |r.payload|)
  }

  // --- Publishing -----------------------------------------------------------------------------------

  /** What `publish_version` hands to the repository. The content digest, the size and the version
      checksum are computed from the rest. */
  datatype CreateRecord = CreateRecord(facts: PublishRecord, relationships: Relationships, payload: string,
      origin: Origin)

  predicate WellBuilt(r: CreateRecord) {
    r.facts.contentDigest == Sha256(r.payload) && r.facts.relationships == Flatten(r.relationships)
  }

  datatype Ids = Ids(skill: Id, content: Id, version: Id)

  predicate Unused(t: Tables, ids: Ids) {
    ids.skill !in t.skills && ids.content !in t.contents && ids.version !in t.versions
  }

  datatype PublishOutcome = Accepted(version: Id) | NamespaceNotFound | PackNotFound | DuplicateVersion

  ghost function PublishVerdict(t: Tables, r: CreateRecord, ids: Ids): PublishOutcome {
    if SkillOf(t, r.facts.slug).None? && NamespaceOf(t, r.facts.namespace).None? then NamespaceNotFound
    else if r.facts.policyPackSlug.Some? && PackOf(t, r.facts.policyPackSlug.value).None? then PackNotFound
    else if VersionOf(t, r.facts.slug, r.facts.version).Some? then DuplicateVersion
    else Accepted(ids.version)
  }

  /** An existing skill is taken as it is; only a new one takes the requested namespace. */
  ghost function WithSkill(t: Tables, r: CreateRecord, unused: Id): Tables {
    if SkillOf(t, r.facts.slug).Some? || NamespaceOf(t, r.facts.namespace).None? then t
    else t.(skills := t.skills[unused := SkillRow(r.facts.slug, NamespaceOf(t, r.facts.namespace).value, 0)])
  }

  ghost function WithContent(t: Tables, r: CreateRecord, unused: Id): Tables {
    if ContentOf(t, r.facts.contentDigest).Some? then t
    else t.(contents := t.contents[unused := ContentRow(r.payload, |r.payload|, r.facts.contentDigest)])
  }

  ghost function OrFresh(found: Option<Id>, unused: Id): Id {
    if found.Some? then found.value else unused
  }

  ghost function PublishedRow(t: Tables, r: CreateRecord, ids: Ids, now: int): VersionRow {
    VersionRow(
      OrFresh(SkillOf(t, r.facts.slug), ids.skill), r.facts.version,
        OrFresh(ContentOf(t, r.facts.contentDigest), ids.content),
      r.facts.metadata, VersionChecksumDigest(r.facts), r.facts.provenance, r.origin, now,
      Published, r.facts.trustTier, r.facts.reviewState, r.facts.channel,
      if r.facts.policyPackSlug.Some? then PackOf(t, r.facts.policyPackSlug.value) else None)
  }

  function WithVersion(t: Tables, v: Id, row: VersionRow, rows: seq<SelectorRow>, document: Document): Tables {
    t.(versions := t.versions[v := row], selectors := t.selectors[v := rows], documents := t.documents[v := document])
  }

  ghost function AfterPublish(t: Tables, r: CreateRecord, ids: Ids, now: int): Tables {
    if !PublishVerdict(t, r, ids).Accepted? then t
    else
      WithVersion(WithContent(WithSkill(t, r, ids.skill), r, ids.content), ids.version,
                  PublishedRow(t, r, ids, now), r.facts.relationships, BuildSearchDocument(r, now))
  }

  // --- The other transactions ------------------------------------------------------------------------

  ghost function AfterStatus(t: Tables, slug: string, version: string, status: Lifecycle): Tables {
    match VersionOf(t, slug, version)
    case None => t
    case Some(v) =>
      t.(versions := t.versions[v := t.versions[v].(lifecycle := status)],
         documents := if v in t.documents then t.documents[v := t.documents[v].(lifecycle := status)] else t.documents)
  }

  predicate OfSkill(t: Tables, v: Id, skill: Id) {
    v in t.versions && t.versions[v].skill == skill
  }

  /** Moving a skill rewrites the namespace of all its documents. */
  ghost function AfterOwnership(t: Tables, slug: string, namespace: string): Tables {
    match SkillOf(t, slug)
    case None => t
    case Some(s) =>
      if NamespaceOf(t, namespace).None? then t
      else t.(skills := t.skills[s := t.skills[s].(namespace := NamespaceOf(t, namespace).value)],
              documents := map d | d in t.documents ::
                if OfSkill(t, d, s) then t.documents[d].(namespace := namespace) else t.documents[d])
  }

  /** Absent arguments leave their column alone. */
  datatype Change = Change(reviewState: Option<ReviewState>, channel: Option<Channel>, trustTier: Option<TrustTier>,
      packSlug: Option<string>)

  function OrKeep<T>(change: Option<T>, current: T): T {
    if change.Some? then change.value else current
  }

  ghost function Changed(t: Tables, row: VersionRow, c: Change): VersionRow {
    row.(reviewState := OrKeep(c.reviewState, row.reviewState),
         channel := OrKeep(c.channel, row.channel),
         trustTier := OrKeep(c.trustTier, row.trustTier),
         pack := if c.packSlug.Some? then PackOf(t, c.packSlug.value) else row.pack)
  }

  function SyncedGovernance(d: Document, row: VersionRow, pack: Option<string>): Document {
    d.(trustTier := row.trustTier, origin := row.origin, reviewState := row.reviewState, channel := row.channel,
      pack := pack)
  }

  ghost function AfterGovernance(t: Tables, slug: string, version: string, c: Change): Tables {
    match VersionOf(t, slug, version)
    case None => t
    case Some(v) =>
      if c.packSlug.Some? && PackOf(t, c.packSlug.value).None? then t
      else
        var row := Changed(t, t.versions[v], c);
        var pack := if c.packSlug.Some? then c.packSlug else PackSlug(t, t.versions[v].pack);
        t.(versions := t.versions[v := row],
           documents := if v in t.documents
             then t.documents[v := SyncedGovernance(t.documents[v], row, pack)] else t.documents)
  }

  ghost function AfterInstall(t: Tables, slug: string, version: string): Tables {
    match VersionOf(t, slug, version)
    case None => t
    case Some(v) =>
      var s := t.versions[v].skill;
      t.(skills := t.skills[s := t.skills[s].(installs := t.skills[s].installs + 1)])
  }

  ghost function AfterNamespace(t: Tables, slug: string, unused: Id): Tables {
    if NamespaceOf(t, slug).Some? then t else t.(namespaces := t.namespaces[unused := slug])
  }

  ghost function AfterPack(t: Tables, slug: string, rules: string, unused: Id): Tables {
    t.(packs := t.packs[OrFresh(PackOf(t, slug), unused) := PackRow(slug, rules)])
  }

  // --- Runs ---------------------------------------------------------------------------------------------

  datatype Step =
    | CreateVersion(record: CreateRecord, ids: Ids, now: int)
    | UpdateStatus(slug: string, version: string, status: Lifecycle)
    | UpdateOwnership(slug: string, namespace: string)
    | UpdateGovernance(slug: string, version: string, change: Change)
    | RecordInstall(slug: string, version: string)
    | CreateNamespace(slug: string, unused: Id)
    | UpsertPack(slug: string, rules: string, unused: Id)

  /** Any column values the service can send, with ids from the table sequences. */
  predicate Possible(t: Tables, step: Step) {
    match step
    case CreateVersion(r, ids, _) => WellBuilt(r) && Unused(t, ids)
    case CreateNamespace(_, unused) => unused !in t.namespaces
    case UpsertPack(_, _, unused) => unused !in t.packs
    case _ => true
  }

  ghost function Next(t: Tables, step: Step): Tables {
    match step
    case CreateVersion(r, ids, now) => AfterPublish(t, r, ids, now)
    case UpdateStatus(slug, version, status) => AfterStatus(t, slug, version, status)
    case UpdateOwnership(slug, namespace) => AfterOwnership(t, slug, namespace)
    case UpdateGovernance(slug, version, change) => AfterGovernance(t, slug, version, change)
    case RecordInstall(slug, version) => AfterInstall(t, slug, version)
    case CreateNamespace(slug, unused) => AfterNamespace(t, slug, unused)
    case UpsertPack(slug, rules, unused) => AfterPack(t, slug, rules, unused)
  }

  ghost predicate Run(states: seq<Tables>, steps: seq<Step>) {
    && |states| == |steps| + 1 && states[0] == EMPTY
    && forall i | 0 <= i < |steps| :: Possible(states[i], steps[i]) && states[i + 1] == Next(states[i], steps[i])
  }
}
