/** The catalogue as a function of the requests alone: governed columns and search documents are
    folds over the sequence of steps, whatever ids the rows received. */
module CatalogueRequests {
  import opened Catalogue
  import opened CatalogueHistory
  import opened CatalogueLaws
  import opened Collections
  import opened Governance
  import VersionChecksum

  // --- Which names exist ---------------------------------------------------------------------------

  ghost predicate PackRequested(steps: seq<Step>, n: nat, slug: string) {
    exists i | 0 <= i < n && i < |steps| :: steps[i].UpsertPack? && steps[i].slug == slug
  }

  ghost predicate NamespaceRequested(steps: seq<Step>, n: nat, slug: string) {
    exists i | 0 <= i < n && i < |steps| :: steps[i].CreateNamespace? && steps[i].slug == slug
  }

  lemma OtherStepsKeepNames(t: Tables, step: Step)
    ensures !step.UpsertPack? ==> Next(t, step).packs == t.packs
    ensures !step.CreateNamespace? ==> Next(t, step).namespaces == t.namespaces
  {
    hide PublishVerdict, WithSkill, WithContent, PublishedRow, BuildSearchDocument;
    if step.CreateVersion? {
      WithSkillRest(t, step.record, step.ids.skill);
      WithContentRest(WithSkill(t, step.record, step.ids.skill), step.record, step.ids.content);
    }
  }

  lemma StepAndPackName(t: Tables, step: Step, slug: string)
    requires Possible(t, step)
    ensures PackOf(Next(t, step), slug).Some? <==> PackOf(t, slug).Some? || (step.UpsertPack? && step.slug == slug)
  {
    hide AfterStatus, AfterOwnership, AfterGovernance, AfterInstall, AfterNamespace, AfterPublish;
    if !step.UpsertPack? {
      OtherStepsKeepNames(t, step);
    } else {
      var id := OrFresh(PackOf(t, step.slug), step.unused);
      var u := Next(t, step);
      assert id in u.packs && u.packs[id].slug == step.slug;
      if PackOf(t, slug).Some? && slug != step.slug {
        assert PackOf(t, slug).value in u.packs;
      }
    }
  }

  lemma StepAndNamespaceName(t: Tables, step: Step, slug: string)
    requires Possible(t, step)
    ensures NamespaceOf(Next(t, step), slug).Some?
      <==> NamespaceOf(t, slug).Some? || (step.CreateNamespace? && step.slug == slug)
  {
    hide AfterStatus, AfterOwnership, AfterGovernance, AfterInstall, AfterPack, AfterPublish;
    if !step.CreateNamespace? {
      OtherStepsKeepNames(t, step);
    } else if NamespaceOf(t, step.slug).None? {
      var u := Next(t, step);
      assert step.unused in u.namespaces && u.namespaces[step.unused] == step.slug;
      if NamespaceOf(t, slug).Some? {
        assert NamespaceOf(t, slug).value in u.namespaces;
      }
    }
  }

  lemma {:induction false} NamesAreRequested(states: seq<Tables>, steps: seq<Step>, n: nat, slug: string)
    requires Run(states, steps) && n < |states|
    ensures PackOf(states[n], slug).Some? <==> PackRequested(steps, n, slug)
    ensures NamespaceOf(states[n], slug).Some? <==> NamespaceRequested(steps, n, slug)
  {
    if n > 0 {
      hide Next, Possible;
      NamesAreRequested(states, steps, n - 1, slug);
      StepTaken(states, steps, n - 1);
      StepAndPackName(states[n - 1], steps[n - 1], slug);
      StepAndNamespaceName(states[n - 1], steps[n - 1], slug);
    }
  }

  ghost function LastRules(steps: seq<Step>, n: nat, slug: string): Option<string>
    requires n <= |steps|
  {
    if n == 0 then None
    else if steps[n - 1].UpsertPack? && steps[n - 1].slug == slug then Some(steps[n - 1].rules)
    else LastRules(steps, n - 1, slug)
  }

  function RulesOf(t: Tables, pack: Option<Id>): Option<string> {
    if pack.Some? && pack.value in t.packs then Some(t.packs[pack.value].rules) else None
  }

  lemma UpsertAndRules(t: Tables, slug: string, rules: string, unused: Id, asked: string)
    requires UniqueNames(t) && UniqueNames(AfterPack(t, slug, rules, unused)) && unused !in t.packs
    ensures var u := AfterPack(t, slug, rules, unused);
      RulesOf(u, PackOf(u, asked)) == if slug == asked then Some(rules) else RulesOf(t, PackOf(t, asked))
  {
    var u, id := AfterPack(t, slug, rules, unused), OrFresh(PackOf(t, slug), unused);
    assert id in u.packs && u.packs[id].slug == slug;
    if PackOf(t, asked).Some? && slug != asked {
      assert PackOf(t, asked).value in u.packs;
    }
  }

  lemma SamePacksSameRules(t: Tables, u: Tables, pack: Option<Id>)
    requires u.packs == t.packs
    ensures RulesOf(u, pack) == RulesOf(t, pack)
  {
  }

  lemma PackOfSameTable(t: Tables, u: Tables, slug: string)
    requires UniqueNames(t) && u.packs == t.packs
    ensures PackOf(u, slug) == PackOf(t, slug)
  {
  }

  lemma StepAndRules(t: Tables, step: Step, slug: string)
    requires Sound(t) && Possible(t, step)
    ensures RulesOf(Next(t, step), PackOf(Next(t, step), slug))
         == if step.UpsertPack? && step.slug == slug then Some(step.rules) else RulesOf(t, PackOf(t, slug))
  {
    StepKeepsSound(t, step);
    OtherStepsKeepNames(t, step);
    hide AfterStatus, AfterOwnership, AfterGovernance, AfterInstall, AfterNamespace, AfterPublish, AfterPack, RulesOf;
    if step.UpsertPack? {
      UpsertAndRules(t, step.slug, step.rules, step.unused, slug);
    } else {
      PackOfSameTable(t, Next(t, step), slug);
      SamePacksSameRules(t, Next(t, step), PackOf(t, slug));
    }
  }

  /** The rules of a policy pack are those of the last request for it. */
  lemma {:induction false} RulesFollowRequests(states: seq<Tables>, steps: seq<Step>, n: nat, slug: string)
    requires Run(states, steps) && n < |states|
    ensures RulesOf(states[n], PackOf(states[n], slug)) == LastRules(steps, n, slug)
  {
    if n > 0 {
      hide Next, Possible, Sound;
      RulesFollowRequests(states, steps, n - 1, slug);
      StepTaken(states, steps, n - 1);
      RunsAreSound(states, steps, n - 1);
      StepAndRules(states[n - 1], steps[n - 1], slug);
    }
  }

  // --- Governed columns -----------------------------------------------------------------------------

  datatype Governed = Governed(lifecycle: Lifecycle, trustTier: TrustTier, reviewState: ReviewState, channel: Channel,
      pack: Option<string>)

  function ColumnsOf(t: Tables, v: Id): Governed
    requires v in t.versions
  {
    var row := t.versions[v];
    Governed(row.lifecycle, row.trustTier, row.reviewState, row.channel, PackSlug(t, row.pack))
  }

  predicate Addresses(step: Step, slug: string, version: string) {
    (step.UpdateStatus? || step.UpdateGovernance?) && step.slug == slug && step.version == version
  }

  function Applied(g: Governed, c: Change): Governed {
    Governed(
      g.lifecycle,
      if c.trustTier.Some? then c.trustTier.value else g.trustTier,
      if c.reviewState.Some? then c.reviewState.value else g.reviewState,
      if c.channel.Some? then c.channel.value else g.channel,
      if c.packSlug.Some? then c.packSlug else g.pack)
  }

  /** The governed columns that steps k to n - 1 ask for, for the version published at step k: each
      status update sets the status, each governance update the columns it names, unless it names
      a policy pack nobody has created. */
  ghost function Requested(steps: seq<Step>, k: nat, n: nat): Governed
    requires k < n <= |steps| && steps[k].CreateVersion?
    decreases n
  {
    var facts := steps[k].record.facts;
    if n == k + 1 then Governed(Published, facts.trustTier, facts.reviewState, facts.channel, facts.policyPackSlug)
    else
      var before, step := Requested(steps, k, n - 1), steps[n - 1];
      if !Addresses(step, facts.slug, facts.version) then before
      else if step.UpdateStatus? then before.(lifecycle := step.status)
      else if step.change.packSlug.Some? && !PackRequested(steps, n - 1, step.change.packSlug.value) then before
      else Applied(before, step.change)
  }

  lemma PublishedColumns(t: Tables, step: Step)
    requires Sound(t) && Possible(t, step) && step.CreateVersion? && PublishVerdict(t, step.record, step.ids).Accepted?
    ensures step.ids.version in Next(t, step).versions
    ensures var facts := step.record.facts;
      ColumnsOf(Next(t, step), step.ids.version)
        == Governed(Published, facts.trustTier, facts.reviewState, facts.channel, facts.policyPackSlug)
  {
    OtherStepsKeepNames(t, step);
    hide UniqueNames, UniqueCoordinates, ContentsSound, BuildSearchDocument, WithSkill, WithContent;
  }

  lemma NamedVersion(t: Tables, v: Id, slug: string, version: string)
    requires Schema(t) && Names(t, v, slug, version)
    ensures VersionOf(t, slug, version) == Some(v)
    ensures forall s, w | VersionOf(t, s, w) == Some(v) :: s == slug && w == version
  {
  }

  lemma StatusColumns(t: Tables, slug: string, version: string, status: Lifecycle, v: Id, named: string, at: string)
    requires Schema(t) && Names(t, v, named, at)
    ensures var u := AfterStatus(t, slug, version, status);
      v in u.versions
      && ColumnsOf(u, v) == if slug == named && version == at
         then ColumnsOf(t, v).(lifecycle := status) else ColumnsOf(t, v)
  {
    NamedVersion(t, v, named, at);
    hide ForeignKeys, UniqueNames, UniqueCoordinates;
  }

  lemma GovernanceColumns(t: Tables, slug: string, version: string, c: Change, v: Id, named: string, at: string)
    requires Schema(t) && Names(t, v, named, at)
    ensures var u := AfterGovernance(t, slug, version, c);
      v in u.versions
      && ColumnsOf(u, v) ==
        if slug == named && version == at && (c.packSlug.Some? ==> PackOf(t, c.packSlug.value).Some?)
          then Applied(ColumnsOf(t, v), c)
        else ColumnsOf(t, v)
  {
    NamedVersion(t, v, named, at);
    hide ForeignKeys, UniqueNames, UniqueCoordinates;
  }

  lemma OtherStepsKeepRows(t: Tables, step: Step, v: Id)
    requires Possible(t, step) && v in t.versions && !step.UpdateStatus? && !step.UpdateGovernance?
    ensures v in Next(t, step).versions && Next(t, step).versions[v] == t.versions[v]
  {
    hide PublishVerdict, PublishedRow, BuildSearchDocument;
    if step.CreateVersion? {
      WithSkillRest(t, step.record, step.ids.skill);
      WithContentRest(WithSkill(t, step.record, step.ids.skill), step.record, step.ids.content);
    }
  }

  lemma OtherColumns(t: Tables, step: Step, v: Id)
    requires Sound(t) && Possible(t, step) && v in t.versions && !step.UpdateStatus? && !step.UpdateGovernance?
    ensures v in Next(t, step).versions && ColumnsOf(Next(t, step), v) == ColumnsOf(t, v)
  {
    StepContinues(t, step);
    OtherStepsKeepRows(t, step, v);
    var row := t.versions[v];
    if row.pack.Some? {
      var p := row.pack.value;
      assert p in t.packs && Next(t, step).packs[p].slug == t.packs[p].slug;
    }
  }

  lemma StepColumns(states: seq<Tables>, steps: seq<Step>, k: nat, n: nat, v: Id)
    requires Run(states, steps) && Publishes(states, steps, k, v) && k < n < |steps|
    requires v in states[n].versions && ColumnsOf(states[n], v) == Requested(steps, k, n)
    ensures v in states[n + 1].versions && ColumnsOf(states[n + 1], v) == Requested(steps, k, n + 1)
  {
    var t, step, facts := states[n], steps[n], steps[k].record.facts;
    StepTaken(states, steps, n);
    RunsAreSound(states, steps, n);
    PublishedForGood(states, steps, k, n, v);
    assert Names(t, v, facts.slug, facts.version);
    hide Run, Possible, PublishVerdict, ColumnsOf, Applied, Holds, UniqueNames, UniqueCoordinates, ContentsSound,
      ForeignKeys, AfterStatus, AfterGovernance, AfterPublish, AfterOwnership, AfterInstall, AfterNamespace, AfterPack;
    match step
    case UpdateStatus(slug, version, status) =>
      StatusColumns(t, slug, version, status, v, facts.slug, facts.version);
    case UpdateGovernance(slug, version, c) =>
      if c.packSlug.Some? {
        NamesAreRequested(states, steps, n, c.packSlug.value);
      }
      GovernanceColumns(t, slug, version, c, v, facts.slug, facts.version);
    case _ =>
      OtherColumns(t, step, v);
  }

  /** At any moment the governed columns of a version are what the requests so far ask for. */
  lemma {:induction false} ColumnsFollowRequests(states: seq<Tables>, steps: seq<Step>, k: nat, n: nat, v: Id)
    requires Run(states, steps) && Publishes(states, steps, k, v) && k < n < |states|
    ensures v in states[n].versions && ColumnsOf(states[n], v) == Requested(steps, k, n)
    decreases n
  {
    hide Next, Possible, Sound, PublishVerdict, ColumnsOf, Applied, Holds;
    StepTaken(states, steps, n - 1);
    RunsAreSound(states, steps, n - 1);
    var t, step := states[n - 1], steps[n - 1];
    if n == k + 1 {
      PublishedColumns(t, step);
    } else {
      ColumnsFollowRequests(states, steps, k, n - 1, v);
      StepColumns(states, steps, k, n - 1, v);
    }
  }

  // --- Search documents -------------------------------------------------------------------------------

  predicate MovesSkill(step: Step, slug: string) {
    step.UpdateOwnership? && step.slug == slug
  }

  /** The namespace that steps k to n - 1 ask for: the one named by the publish at step k, or by the
      last later ownership update of its skill that names a namespace somebody has created. */
  ghost function RequestedNamespace(steps: seq<Step>, k: nat, n: nat): string
    requires k < n <= |steps| && steps[k].CreateVersion?
    decreases n
  {
    var facts := steps[k].record.facts;
    if n == k + 1 then facts.namespace
    else if MovesSkill(steps[n - 1], facts.slug) && NamespaceRequested(steps, n - 1, steps[n - 1].namespace)
      then steps[n - 1].namespace
    else RequestedNamespace(steps, k, n - 1)
  }

  ghost function RequestedDocument(steps: seq<Step>, k: nat, n: nat): Document
    requires k < n <= |steps| && steps[k].CreateVersion?
  {
    var r, g := steps[k].record, Requested(steps, k, n);
    Document(r.facts.slug, r.facts.version, r.facts.metadata.name, r.facts.metadata.description, r.facts.metadata.tags,
             g.lifecycle, g.trustTier, RequestedNamespace(steps, k, n), r.origin, g.reviewState, g.channel, g.pack,
             steps[k].now, |r.payload|)
  }

  lemma OtherStepsKeepDocumentNamespace(t: Tables, step: Step, v: Id)
    requires Possible(t, step) && v in t.versions && v in t.documents && !step.UpdateOwnership?
    ensures v in Next(t, step).documents && Next(t, step).documents[v].namespace == t.documents[v].namespace
  {
    hide PublishVerdict, PublishedRow, BuildSearchDocument, AfterOwnership;
    if step.CreateVersion? {
      WithSkillRest(t, step.record, step.ids.skill);
      WithContentRest(WithSkill(t, step.record, step.ids.skill), step.record, step.ids.content);
    }
  }

  lemma OwnershipAndNamespaceColumn(t: Tables, slug: string, namespace: string, v: Id, named: string, at: string)
    requires Sound(t) && Names(t, v, named, at)
    ensures var u := AfterOwnership(t, slug, namespace);
      v in u.documents
      && u.documents[v].namespace
        == if slug == named && NamespaceOf(t, namespace).Some? then namespace else t.documents[v].namespace
  {
    hide UniqueCoordinates, ContentsSound;
    OwnershipRows(t, slug, namespace, v);
    assert SkillOf(t, slug).Some? ==> (SkillOf(t, slug).value == t.versions[v].skill <==> slug == named);
    assert slug == named ==> SkillOf(t, slug).Some?;
  }

  lemma SoundDocuments(t: Tables)
    requires Sound(t)
    ensures t.documents.Keys == t.versions.Keys
  {
  }

  lemma PublishedNamespace(t: Tables, step: Step)
    requires Sound(t) && Possible(t, step) && step.CreateVersion? && PublishVerdict(t, step.record, step.ids).Accepted?
    ensures step.ids.version in Next(t, step).documents
    ensures Next(t, step).documents[step.ids.version].namespace == step.record.facts.namespace
  {
    hide Sound, PublishVerdict, AfterPublish;
    PublishEffect(t, step.record, step.ids, step.now);
    SoundDocuments(Next(t, step));
  }

  lemma NamedIsStored(t: Tables, v: Id, slug: string, version: string)
    requires Names(t, v, slug, version)
    ensures v in t.versions
  {
  }

  lemma StepNamespace(states: seq<Tables>, steps: seq<Step>, k: nat, n: nat, v: Id)
    requires Run(states, steps) && Publishes(states, steps, k, v) && k < n < |steps|
    requires v in states[n].documents && states[n].documents[v].namespace == RequestedNamespace(steps, k, n)
    ensures v in states[n + 1].documents && states[n + 1].documents[v].namespace == RequestedNamespace(steps, k, n + 1)
  {
    var t, step, facts := states[n], steps[n], steps[k].record.facts;
    StepTaken(states, steps, n);
    RunsAreSound(states, steps, n);
    PublishedForGood(states, steps, k, n, v);
    assert Names(t, v, facts.slug, facts.version);
    hide Run, Possible, PublishVerdict, Holds, Sound, Names, AfterOwnership, AfterStatus, AfterGovernance, AfterPublish,
      AfterInstall, AfterNamespace, AfterPack;
    if step.UpdateOwnership? {
      NamesAreRequested(states, steps, n, step.namespace);
      OwnershipAndNamespaceColumn(t, step.slug, step.namespace, v, facts.slug, facts.version);
    } else {
      NamedIsStored(t, v, facts.slug, facts.version);
      OtherStepsKeepDocumentNamespace(t, step, v);
    }
  }

  lemma {:induction false} DocumentNamespaceFollowsRequests(states: seq<Tables>, steps: seq<Step>, k: nat, n: nat,
      v: Id)
    requires Run(states, steps) && Publishes(states, steps, k, v) && k < n < |states|
    ensures v in states[n].documents && states[n].documents[v].namespace == RequestedNamespace(steps, k, n)
    decreases n
  {
    hide Next, Possible, Sound, PublishVerdict;
    StepTaken(states, steps, n - 1);
    RunsAreSound(states, steps, n - 1);
    if n == k + 1 {
      PublishedNamespace(states[n - 1], steps[n - 1]);
    } else {
      DocumentNamespaceFollowsRequests(states, steps, k, n - 1, v);
      StepNamespace(states, steps, k, n - 1, v);
    }
  }

  /** At any moment of any run the search document of a version is exactly the one the requests so
      far ask for: a function of the publish that created it and of the later status, governance
      and ownership requests that name it. */
  lemma DocumentFollowsRequests(states: seq<Tables>, steps: seq<Step>, k: nat, n: nat, v: Id)
    requires Run(states, steps) && Publishes(states, steps, k, v) && k < n < |states|
    ensures v in states[n].documents && states[n].documents[v] == RequestedDocument(steps, k, n)
  {
    hide Run, Publishes, Requested, RequestedNamespace;
    DocumentNamespaceFollowsRequests(states, steps, k, n, v);
    ColumnsFollowRequests(states, steps, k, n, v);
    PublishedForGood(states, steps, k, n, v);
    DocumentsAreCurrent(states, steps, n);
    assert AgreesButForNamespace(states[n], v);
  }

  // --- A checksum that cannot be recomputed -----------------------------------------------------------

  const ONE_NAMESPACE: Tables := EMPTY.(namespaces := map[1 := "a"])

  lemma FirstPublish(m: VersionChecksum.Metadata)
    ensures var publish := CreateVersion(Draft("1.0.0", "a", m), Ids(1, 1, 1), 0);
      && Next(EMPTY, CreateNamespace("a", 1)) == ONE_NAMESPACE
      && Possible(ONE_NAMESPACE, publish) && PublishVerdict(ONE_NAMESPACE, publish.record, publish.ids).Accepted?
  {
    hide VersionChecksum.VersionChecksumDigest;
    DraftIsWellBuilt("1.0.0", "a", m);
    assert 1 in ONE_NAMESPACE.namespaces && ONE_NAMESPACE.namespaces[1] == "a";
  }

  function Promotion(): Step {
    UpdateGovernance("lint", "1.0.0", Change(None, None, Some(Verified), None))
  }

  lemma TierOfColumns(t: Tables, v: Id)
    requires v in t.versions
    ensures ColumnsOf(t, v).trustTier == t.versions[v].trustTier
  {
  }

  lemma DraftFacts(m: VersionChecksum.Metadata)
    ensures var facts := Draft("1.0.0", "a", m).facts;
      facts.trustTier == Untrusted && facts.slug == "lint" && facts.version == "1.0.0"
  {
  }

  lemma PromotedTier(steps: seq<Step>, m: VersionChecksum.Metadata)
    requires |steps| == 3 && steps[1] == CreateVersion(Draft("1.0.0", "a", m), Ids(1, 1, 1), 0)
      && steps[2] == Promotion()
    ensures Requested(steps, 1, 3).trustTier == Verified && steps[1].record.facts.trustTier == Untrusted
  {
    hide Draft;
    DraftFacts(m);
    assert Requested(steps, 1, 2).trustTier == Untrusted;
  }

  /** The condition on the trust tier matters: a version published untrusted and then verified no
      longer yields its stored checksum. */
  lemma AChecksumCanBeOutdated(m: VersionChecksum.Metadata) returns (states: seq<Tables>, steps: seq<Step>)
    ensures Run(states, steps) && |states| == 4 && Publishes(states, steps, 1, 1)
    ensures Sound(states[3]) && 1 in states[3].versions
    ensures VersionChecksum.VersionChecksumDigest(StoredFacts(states[3], 1)) != states[3].versions[1].checksum
  {
    hide Next, PublishVerdict, Draft, Requested, ColumnsOf, VersionChecksum.VersionChecksumDigest, StoredFacts, Sound,
      PackRequested;
    var publish := CreateVersion(Draft("1.0.0", "a", m), Ids(1, 1, 1), 0);
    steps := [CreateNamespace("a", 1), publish, Promotion()];
    FirstPublish(m);
    var s2 := Next(ONE_NAMESPACE, publish);
    states := [EMPTY, ONE_NAMESPACE, s2, Next(s2, Promotion())];
    assert Run(states, steps);
    ColumnsFollowRequests(states, steps, 1, 3, 1);
    PromotedTier(steps, m);
    TierOfColumns(states[3], 1);
    ChecksumCanBeRecomputedIff(states, steps, 1, 3, 1);
  }
}
