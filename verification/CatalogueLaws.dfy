/** What every run of catalogue transactions keeps. */
module CatalogueLaws {
  import opened Catalogue
  import opened Collections
  import opened Governance
  import opened Hashing
  import opened Selectors
  import opened VersionChecksum

  ghost predicate ContentsSound(t: Tables) {
    forall c | c in t.contents ::
      t.contents[c].digest == Sha256(t.contents[c].payload) && t.contents[c].size == |t.contents[c].payload|
  }

  /** The schema's constraints, content rows that match their digests, and one document and one
      selector list per version. */
  ghost predicate Sound(t: Tables) {
    && Schema(t)
    && ContentsSound(t)
    && t.documents.Keys == t.versions.Keys
    && t.selectors.Keys == t.versions.Keys
  }

  lemma WithSkillKeepsSound(t: Tables, r: CreateRecord, unused: Id)
    requires Sound(t) && unused !in t.skills
    ensures Sound(WithSkill(t, r, unused))
  {
  }

  lemma WithContentKeepsSound(t: Tables, r: CreateRecord, unused: Id)
    requires Sound(t) && unused !in t.contents && WellBuilt(r)
    ensures Sound(WithContent(t, r, unused))
  {
  }

  ghost predicate Fits(t: Tables, row: VersionRow) {
    && row.skill in t.skills && row.content in t.contents && (row.pack.Some? ==> row.pack.value in t.packs)
    && forall w | w in t.versions :: !(t.versions[w].skill == row.skill && t.versions[w].version == row.version)
  }

  lemma WithVersionKeepsSound(t: Tables, v: Id, row: VersionRow, rows: seq<SelectorRow>, document: Document)
    requires Sound(t) && v !in t.versions && Fits(t, row)
    ensures Sound(WithVersion(t, v, row, rows, document))
  {
  }

  lemma AcceptedCoordinateIsNew(t: Tables, r: CreateRecord, ids: Ids)
    requires Sound(t) && Unused(t, ids) && PublishVerdict(t, r, ids).Accepted?
    ensures forall w | w in t.versions && t.versions[w].skill == OrFresh(SkillOf(t, r.facts.slug), ids.skill) ::
      t.versions[w].version != r.facts.version
  {
    hide UniqueNames, UniqueCoordinates, ContentsSound;
    forall w | w in t.versions && t.versions[w].skill == OrFresh(SkillOf(t, r.facts.slug), ids.skill)
      ensures t.versions[w].version != r.facts.version
    {
      if SkillOf(t, r.facts.slug).Some? {
        assert !Names(t, w, r.facts.slug, r.facts.version);
      }
    }
  }

  lemma PublishedRowFits(t: Tables, r: CreateRecord, ids: Ids, now: int)
    requires Sound(t) && Unused(t, ids) && PublishVerdict(t, r, ids).Accepted?
    ensures Fits(WithContent(WithSkill(t, r, ids.skill), r, ids.content), PublishedRow(t, r, ids, now))
  {
    AcceptedCoordinateIsNew(t, r, ids);
    hide UniqueNames, UniqueCoordinates, ContentsSound, ForeignKeys, VersionChecksumDigest;
  }

  lemma WithSkillRest(t: Tables, r: CreateRecord, unused: Id)
    ensures var u := WithSkill(t, r, unused); u == t.(skills := u.skills)
  {
  }

  lemma WithContentRest(t: Tables, r: CreateRecord, unused: Id)
    ensures var u := WithContent(t, r, unused); u == t.(contents := u.contents)
  {
  }

  lemma PublishKeepsSound(t: Tables, r: CreateRecord, ids: Ids, now: int)
    requires Sound(t) && Unused(t, ids) && WellBuilt(r)
    ensures Sound(AfterPublish(t, r, ids, now))
  {
    hide Sound, WithSkill, WithContent, WithVersion, PublishedRow, Fits, PublishVerdict;
    WithSkillKeepsSound(t, r, ids.skill);
    var u := WithSkill(t, r, ids.skill);
    assert u.contents == t.contents && u.versions == t.versions by { WithSkillRest(t, r, ids.skill); }
    WithContentKeepsSound(u, r, ids.content);
    if PublishVerdict(t, r, ids).Accepted? {
      PublishedRowFits(t, r, ids, now);
      assert WithContent(u, r, ids.content).versions == u.versions by { WithContentRest(u, r, ids.content); }
      WithVersionKeepsSound(WithContent(u, r, ids.content), ids.version, PublishedRow(t, r, ids, now),
                            r.facts.relationships, BuildSearchDocument(r, now));
    }
  }

  lemma StatusKeepsSound(t: Tables, slug: string, version: string, status: Lifecycle)
    requires Sound(t)
    ensures Sound(AfterStatus(t, slug, version, status))
  {
  }

  lemma OwnershipKeepsSound(t: Tables, slug: string, namespace: string)
    requires Sound(t)
    ensures Sound(AfterOwnership(t, slug, namespace))
  {
  }

  lemma GovernanceKeepsSound(t: Tables, slug: string, version: string, c: Change)
    requires Sound(t)
    ensures Sound(AfterGovernance(t, slug, version, c))
  {
  }

  lemma InstallKeepsSound(t: Tables, slug: string, version: string)
    requires Sound(t)
    ensures Sound(AfterInstall(t, slug, version))
  {
  }

  lemma NamespaceKeepsSound(t: Tables, slug: string, unused: Id)
    requires Sound(t) && unused !in t.namespaces
    ensures Sound(AfterNamespace(t, slug, unused))
  {
  }

  lemma PackKeepsSound(t: Tables, slug: string, rules: string, unused: Id)
    requires Sound(t) && unused !in t.packs
    ensures Sound(AfterPack(t, slug, rules, unused))
  {
  }

  lemma StepKeepsSound(t: Tables, step: Step)
    requires Sound(t) && Possible(t, step)
    ensures Sound(Next(t, step))
  {
    hide Sound, AfterPublish, AfterStatus, AfterOwnership, AfterGovernance, AfterInstall, AfterNamespace, AfterPack;
    match step
    case CreateVersion(r, ids, now) => PublishKeepsSound(t, r, ids, now);
    case UpdateStatus(slug, version, status) => StatusKeepsSound(t, slug, version, status);
    case UpdateOwnership(slug, namespace) => OwnershipKeepsSound(t, slug, namespace);
    case UpdateGovernance(slug, version, change) => GovernanceKeepsSound(t, slug, version, change);
    case RecordInstall(slug, version) => InstallKeepsSound(t, slug, version);
    case CreateNamespace(slug, unused) => NamespaceKeepsSound(t, slug, unused);
    case UpsertPack(slug, rules, unused) => PackKeepsSound(t, slug, rules, unused);
  }

  lemma {:induction false} RunsAreSound(states: seq<Tables>, steps: seq<Step>, n: nat)
    requires Run(states, steps) && n < |states|
    ensures Sound(states[n])
  {
    if n > 0 {
      RunsAreSound(states, steps, n - 1);
      StepKeepsSound(states[n - 1], steps[n - 1]);
    }
  }

  // --- What never changes ---------------------------------------------------------------------------

  ghost predicate SameAuthoredColumns(a: VersionRow, b: VersionRow) {
    b == a.(lifecycle := b.lifecycle, trustTier := b.trustTier, reviewState := b.reviewState, channel := b.channel,
      pack := b.pack)
  }

  /** u is a later state of the same catalogue: nothing is dropped, names and content are final, and
      of a version only status, trust tier, review state, channel and policy pack may differ. */
  ghost predicate Continues(t: Tables, u: Tables) {
    && (forall n | n in t.namespaces :: n in u.namespaces && u.namespaces[n] == t.namespaces[n])
    && (forall p | p in t.packs :: p in u.packs && u.packs[p].slug == t.packs[p].slug)
    && (forall s | s in t.skills ::
          s in u.skills && u.skills[s].slug == t.skills[s].slug && u.skills[s].installs >= t.skills[s].installs)
    && (forall c | c in t.contents :: c in u.contents && u.contents[c] == t.contents[c])
    && (forall v | v in t.versions :: v in u.versions && SameAuthoredColumns(t.versions[v], u.versions[v]))
    && (forall v | v in t.selectors :: v in u.selectors && u.selectors[v] == t.selectors[v])
  }

  lemma WithSkillContinues(t: Tables, r: CreateRecord, unused: Id)
    requires unused !in t.skills
    ensures Continues(t, WithSkill(t, r, unused))
  {
  }

  lemma WithContentContinues(t: Tables, r: CreateRecord, unused: Id)
    requires unused !in t.contents
    ensures Continues(t, WithContent(t, r, unused))
  {
  }

  lemma WithVersionContinues(t: Tables, v: Id, row: VersionRow, rows: seq<SelectorRow>, document: Document)
    requires v !in t.versions && v !in t.selectors
    ensures Continues(t, WithVersion(t, v, row, rows, document))
  {
  }

  lemma ContinuesIsReflexive(t: Tables)
    ensures Continues(t, t)
  {
  }

  lemma ContinuesIsTransitive(t: Tables, u: Tables, w: Tables)
    requires Continues(t, u) && Continues(u, w)
    ensures Continues(t, w)
  {
  }

  lemma PublishContinues(t: Tables, r: CreateRecord, ids: Ids, now: int)
    requires Sound(t) && Unused(t, ids) && WellBuilt(r)
    ensures Continues(t, AfterPublish(t, r, ids, now))
  {
    hide Schema, ContentsSound, PublishedRow, BuildSearchDocument, PublishVerdict, Continues, WithSkill, WithContent,
      WithVersion;
    var u := WithSkill(t, r, ids.skill);
    var w := WithContent(u, r, ids.content);
    WithSkillRest(t, r, ids.skill);
    WithContentRest(u, r, ids.content);
    if PublishVerdict(t, r, ids).Accepted? {
      WithSkillContinues(t, r, ids.skill);
      WithContentContinues(u, r, ids.content);
      WithVersionContinues(w, ids.version, PublishedRow(t, r, ids, now), r.facts.relationships,
        BuildSearchDocument(r, now));
      ContinuesIsTransitive(t, u, w);
      ContinuesIsTransitive(t, w, AfterPublish(t, r, ids, now));
    } else {
      ContinuesIsReflexive(t);
    }
  }

  lemma VersionUpdateContinues(t: Tables, step: Step)
    requires Sound(t) && (step.UpdateStatus? || step.UpdateGovernance?)
    ensures Continues(t, Next(t, step))
  {
    hide Schema, ContentsSound, AfterPublish;
  }

  lemma OwnershipContinues(t: Tables, slug: string, namespace: string)
    ensures Continues(t, AfterOwnership(t, slug, namespace))
  {
  }

  lemma InstallContinues(t: Tables, slug: string, version: string)
    ensures Continues(t, AfterInstall(t, slug, version))
  {
  }

  lemma NamespaceContinues(t: Tables, slug: string, unused: Id)
    requires unused !in t.namespaces
    ensures Continues(t, AfterNamespace(t, slug, unused))
  {
  }

  lemma PackContinues(t: Tables, slug: string, rules: string, unused: Id)
    requires unused !in t.packs
    ensures Continues(t, AfterPack(t, slug, rules, unused))
  {
  }

  lemma StepContinues(t: Tables, step: Step)
    requires Sound(t) && Possible(t, step)
    ensures Continues(t, Next(t, step))
  {
    hide Sound, Continues, AfterPublish, AfterOwnership, AfterInstall, AfterNamespace, AfterPack, AfterStatus,
      AfterGovernance;
    match step
    case CreateVersion(r, ids, now) => PublishContinues(t, r, ids, now);
    case UpdateOwnership(slug, namespace) => OwnershipContinues(t, slug, namespace);
    case RecordInstall(slug, version) => InstallContinues(t, slug, version);
    case CreateNamespace(slug, unused) => NamespaceContinues(t, slug, unused);
    case UpsertPack(slug, rules, unused) => PackContinues(t, slug, rules, unused);
    case _ => VersionUpdateContinues(t, step);
  }

  /** Over every run coordinates only grow, and authored columns, checksums, selectors and content
      never change. */
  lemma {:induction false} RunsContinue(states: seq<Tables>, steps: seq<Step>, m: nat, n: nat)
    requires Run(states, steps) && m <= n < |states|
    ensures Continues(states[m], states[n])
  {
    hide Next, Continues, Possible, Schema, ContentsSound;
    ContinuesIsReflexive(states[m]);
    if m < n {
      RunsContinue(states, steps, m, n - 1);
      RunsAreSound(states, steps, n - 1);
      StepContinues(states[n - 1], steps[n - 1]);
      ContinuesIsTransitive(states[m], states[n - 1], states[n]);
    }
  }

  // --- Documents against their sources ------------------------------------------------------------

  ghost predicate Agrees(t: Tables, v: Id) {
    Sound(t) && v in t.versions && t.documents[v] == Projection(t, v)
  }

  ghost predicate AgreesButForNamespace(t: Tables, v: Id) {
    Sound(t) && v in t.versions && t.documents[v] == Projection(t, v).(namespace := t.documents[v].namespace)
  }

  ghost predicate Current(t: Tables) {
    Sound(t) && forall v | v in t.versions :: AgreesButForNamespace(t, v)
  }

  /** The publish is accepted, the skill exists, and it lives in another namespace than the one
      requested. */
  ghost predicate NamesAnotherNamespace(t: Tables, step: Step) {
    && ForeignKeys(t)
    && step.CreateVersion?
    && PublishVerdict(t, step.record, step.ids).Accepted?
    && SkillOf(t, step.record.facts.slug).Some?
    && t.namespaces[t.skills[SkillOf(t, step.record.facts.slug).value].namespace] != step.record.facts.namespace
  }

  /** The ownership update is accepted and moves the skill of v. */
  ghost predicate Moves(t: Tables, step: Step, v: Id) {
    && step.UpdateOwnership?
    && SkillOf(t, step.slug).Some? && NamespaceOf(t, step.namespace).Some?
    && OfSkill(t, v, SkillOf(t, step.slug).value)
  }

  lemma PublishLeavesOldRows(t: Tables, r: CreateRecord, ids: Ids, now: int, v: Id)
    requires Unused(t, ids) && v in t.versions && v in t.documents
    ensures var u := AfterPublish(t, r, ids, now);
      && v in u.versions && u.versions[v] == t.versions[v] && v in u.documents && u.documents[v] == t.documents[v]
      && forall s | s in t.skills :: s in u.skills && u.skills[s] == t.skills[s]
  {
    hide PublishVerdict, PublishedRow, BuildSearchDocument;
  }

  lemma SameSourcesSameProjection(t: Tables, u: Tables, v: Id)
    requires ForeignKeys(t) && ForeignKeys(u) && Continues(t, u) && v in t.versions && u.versions[v] == t.versions[v]
    requires u.skills[t.versions[v].skill].namespace == t.skills[t.versions[v].skill].namespace
    ensures Projection(u, v) == Projection(t, v)
  {
    var row := t.versions[v];
    var skill := t.skills[row.skill];
    assert u.skills[row.skill].slug == skill.slug && u.contents[row.content] == t.contents[row.content];
    assert u.namespaces[skill.namespace] == t.namespaces[skill.namespace];
    if row.pack.Some? {
      var p := row.pack.value;
      assert p in t.packs;
      assert u.packs[p].slug == t.packs[p].slug;
    }
  }

  lemma PublishAndOldDocuments(t: Tables, r: CreateRecord, ids: Ids, now: int, v: Id)
    requires Current(t) && Unused(t, ids) && WellBuilt(r) && v in t.versions
    ensures var u := AfterPublish(t, r, ids, now);
      AgreesButForNamespace(u, v) && (Agrees(u, v) <==> Agrees(t, v))
  {
    PublishKeepsSound(t, r, ids, now);
    PublishContinues(t, r, ids, now);
    PublishLeavesOldRows(t, r, ids, now, v);
    assert AgreesButForNamespace(t, v);
    hide AfterPublish, UniqueNames, UniqueCoordinates, ContentsSound, Projection, Continues;
    SameSourcesSameProjection(t, AfterPublish(t, r, ids, now), v);
  }

  /** The namespace a published version really lives in. */
  ghost function HomeNamespace(t: Tables, r: CreateRecord): string
    requires ForeignKeys(t)
  {
    if SkillOf(t, r.facts.slug).Some?
      then t.namespaces[t.skills[SkillOf(t, r.facts.slug).value].namespace] else r.facts.namespace
  }

  lemma PublishEffect(t: Tables, r: CreateRecord, ids: Ids, now: int)
    requires Sound(t) && Unused(t, ids) && WellBuilt(r) && PublishVerdict(t, r, ids).Accepted?
    ensures var u := AfterPublish(t, r, ids, now);
      && Sound(u) && ids.version in u.versions
      && u.documents[ids.version] == BuildSearchDocument(r, now)
      && Projection(u, ids.version) == BuildSearchDocument(r, now).(namespace := HomeNamespace(t, r))
  {
    PublishKeepsSound(t, r, ids, now);
    hide UniqueNames, UniqueCoordinates;
  }

  lemma PublishAndItsDocument(t: Tables, r: CreateRecord, ids: Ids, now: int)
    requires Current(t) && Unused(t, ids) && WellBuilt(r) && PublishVerdict(t, r, ids).Accepted?
    ensures var u := AfterPublish(t, r, ids, now);
      AgreesButForNamespace(u, ids.version)
      && (Agrees(u, ids.version) <==> !NamesAnotherNamespace(t, CreateVersion(r, ids, now)))
  {
    PublishEffect(t, r, ids, now);
    hide AfterPublish, Projection, PublishVerdict;
  }

  lemma StatusEffect(t: Tables, slug: string, version: string, status: Lifecycle, v: Id)
    requires Sound(t) && v in t.versions
    ensures var u := AfterStatus(t, slug, version, status);
      var life := if VersionOf(t, slug, version) == Some(v) then status else t.versions[v].lifecycle;
      var copied := if VersionOf(t, slug, version) == Some(v) then status else t.documents[v].lifecycle;
      && Sound(u) && v in u.versions
      && Projection(u, v) == Projection(t, v).(lifecycle := life)
      && u.documents[v] == t.documents[v].(lifecycle := copied)
  {
    StatusKeepsSound(t, slug, version, status);
    hide UniqueNames, UniqueCoordinates, ContentsSound;
  }

  lemma StatusAndDocuments(t: Tables, slug: string, version: string, status: Lifecycle, v: Id)
    requires Current(t) && v in t.versions
    ensures var u := AfterStatus(t, slug, version, status);
      AgreesButForNamespace(u, v) && (Agrees(u, v) <==> Agrees(t, v))
  {
    StatusEffect(t, slug, version, status, v);
    assert AgreesButForNamespace(t, v);
    assert Projection(t, v).lifecycle == t.versions[v].lifecycle;
    hide AfterStatus, Projection, Schema, ContentsSound;
  }

  lemma OwnershipRows(t: Tables, slug: string, namespace: string, v: Id)
    requires ForeignKeys(t) && v in t.versions && v in t.documents
    ensures var u := AfterOwnership(t, slug, namespace);
      var moved, s := Moves(t, UpdateOwnership(slug, namespace), v), t.versions[v].skill;
      && u == t.(skills := u.skills, documents := u.documents)
      && s in u.skills && u.skills[s].slug == t.skills[s].slug
      && (if moved then u.skills[s].namespace == NamespaceOf(t, namespace).value else u.skills[s] == t.skills[s])
      && v in u.documents
         && u.documents[v] == t.documents[v].(namespace := if moved then namespace else t.documents[v].namespace)
  {
  }

  lemma OwnershipEffect(t: Tables, slug: string, namespace: string, v: Id)
    requires Sound(t) && v in t.versions
    ensures var u := AfterOwnership(t, slug, namespace);
      var moved := Moves(t, UpdateOwnership(slug, namespace), v);
      && Sound(u) && v in u.versions
      && Projection(u, v) == Projection(t, v).(namespace := if moved then namespace else Projection(t, v).namespace)
      && u.documents[v] == t.documents[v].(namespace := if moved then namespace else t.documents[v].namespace)
  {
    OwnershipKeepsSound(t, slug, namespace);
    OwnershipRows(t, slug, namespace, v);
    hide AfterOwnership, UniqueNames, UniqueCoordinates, ContentsSound;
  }

  lemma OwnershipAndDocuments(t: Tables, slug: string, namespace: string, v: Id)
    requires Current(t) && v in t.versions
    ensures var u := AfterOwnership(t, slug, namespace);
      AgreesButForNamespace(u, v) && (Agrees(u, v) <==> Moves(t, UpdateOwnership(slug, namespace), v) || Agrees(t, v))
  {
    hide AfterOwnership, Projection, Sound, Moves;
    OwnershipEffect(t, slug, namespace, v);
    assert AgreesButForNamespace(t, v);
  }

  lemma GovernanceEffect(t: Tables, slug: string, version: string, c: Change, v: Id)
    requires Current(t) && v in t.versions
    ensures var u := AfterGovernance(t, slug, version, c);
      && Sound(u) && v in u.versions
      && (if u == t then true
          else if VersionOf(t, slug, version) == Some(v) then
            var row, pack := u.versions[v], PackSlug(u, u.versions[v].pack);
            && Projection(u, v) == SyncedGovernance(Projection(t, v), row, pack)
            && u.documents[v] == SyncedGovernance(t.documents[v], row, pack)
          else Projection(u, v) == Projection(t, v) && u.documents[v] == t.documents[v])
  {
    GovernanceKeepsSound(t, slug, version, c);
    hide UniqueNames, UniqueCoordinates, ContentsSound;
  }

  lemma GovernanceAndDocuments(t: Tables, slug: string, version: string, c: Change, v: Id)
    requires Current(t) && v in t.versions
    ensures var u := AfterGovernance(t, slug, version, c);
      AgreesButForNamespace(u, v) && (Agrees(u, v) <==> Agrees(t, v))
  {
    GovernanceEffect(t, slug, version, c, v);
    assert AgreesButForNamespace(t, v);
    hide AfterGovernance, Projection, Schema, ContentsSound, PackSlug;
  }

  lemma OtherStepsLeaveDocuments(t: Tables, step: Step)
    requires step.RecordInstall? || step.CreateNamespace? || step.UpsertPack?
    ensures var u := Next(t, step);
      && u.versions == t.versions && u.documents == t.documents
      && forall s | s in t.skills && s in u.skills :: u.skills[s].namespace == t.skills[s].namespace
  {
    hide AfterPublish, AfterStatus, AfterOwnership, AfterGovernance;
  }

  lemma OtherStepsAndDocuments(t: Tables, step: Step, v: Id)
    requires Current(t) && Possible(t, step) && v in t.versions
    requires step.RecordInstall? || step.CreateNamespace? || step.UpsertPack?
    ensures var u := Next(t, step);
      AgreesButForNamespace(u, v) && (Agrees(u, v) <==> Agrees(t, v))
  {
    StepKeepsSound(t, step);
    OtherStepsLeaveDocuments(t, step);
    StepContinues(t, step);
    assert AgreesButForNamespace(t, v);
    hide Next, Projection, UniqueNames, UniqueCoordinates, ContentsSound;
    SameSourcesSameProjection(t, Next(t, step), v);
  }

  /** What one transaction does to an existing document. */
  lemma StepAndDocument(t: Tables, step: Step, v: Id)
    requires Current(t) && Possible(t, step) && v in t.versions
    ensures var u := Next(t, step);
      AgreesButForNamespace(u, v) && (Agrees(u, v) <==> Moves(t, step, v) || Agrees(t, v))
  {
    hide Sound, Current, Agrees, AgreesButForNamespace, AfterPublish, AfterStatus, AfterOwnership, AfterGovernance;
    match step
    case CreateVersion(r, ids, now) => PublishAndOldDocuments(t, r, ids, now, v);
    case UpdateStatus(slug, version, status) => StatusAndDocuments(t, slug, version, status, v);
    case UpdateOwnership(slug, namespace) => OwnershipAndDocuments(t, slug, namespace, v);
    case UpdateGovernance(slug, version, change) => GovernanceAndDocuments(t, slug, version, change, v);
    case _ => OtherStepsAndDocuments(t, step, v);
  }

  lemma OnlyPublishingAddsVersions(t: Tables, step: Step, v: Id)
    requires v in Next(t, step).versions && v !in t.versions
    ensures step.CreateVersion? && step.ids.version == v && PublishVerdict(t, step.record, step.ids).Accepted?
  {
    hide PublishVerdict, PublishedRow, BuildSearchDocument, Changed, SyncedGovernance;
    if step.CreateVersion? {
      WithSkillRest(t, step.record, step.ids.skill);
      WithContentRest(WithSkill(t, step.record, step.ids.skill), step.record, step.ids.content);
    }
  }

  lemma StepKeepsCurrent(t: Tables, step: Step)
    requires Current(t) && Possible(t, step)
    ensures Current(Next(t, step))
  {
    hide AfterPublish, AfterStatus, AfterOwnership, AfterGovernance, AgreesButForNamespace, Moves, Agrees;
    StepKeepsSound(t, step);
    forall v | v in Next(t, step).versions ensures AgreesButForNamespace(Next(t, step), v) {
      if v in t.versions {
        StepAndDocument(t, step, v);
      } else {
        OnlyPublishingAddsVersions(t, step, v);
        PublishAndItsDocument(t, step.record, step.ids, step.now);
      }
    }
  }

  /** In every run, every version has one search document, which says everything its version,
      skill, policy-pack and content rows say, except possibly the namespace. */
  lemma {:induction false} DocumentsAreCurrent(states: seq<Tables>, steps: seq<Step>, n: nat)
    requires Run(states, steps) && n < |states|
    ensures Current(states[n])
  {
    if n > 0 {
      DocumentsAreCurrent(states, steps, n - 1);
      StepKeepsCurrent(states[n - 1], steps[n - 1]);
    }
  }
}
