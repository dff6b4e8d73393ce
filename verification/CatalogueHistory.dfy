/** What the tables at any moment say about the publications and updates before it. */
module CatalogueHistory {
  import opened Catalogue
  import opened CatalogueLaws
  import opened Collections
  import opened Governance
  import opened Hashing
  import opened Selectors
  import opened VersionChecksum

  /** Step k is the accepted publish that created version v. */
  ghost predicate Publishes(states: seq<Tables>, steps: seq<Step>, k: nat, v: Id)
    requires Run(states, steps)
  {
    && k < |steps| && steps[k].CreateVersion? && steps[k].ids.version == v
    && PublishVerdict(states[k], steps[k].record, steps[k].ids).Accepted?
  }

  lemma {:induction false} EveryVersionWasPublished(states: seq<Tables>, steps: seq<Step>, n: nat, v: Id)
    returns (k: nat)
    requires Run(states, steps) && n < |states| && v in states[n].versions
    ensures k < n && Publishes(states, steps, k, v)
  {
    hide Next, Possible, PublishVerdict;
    if v in states[n - 1].versions {
      k := EveryVersionWasPublished(states, steps, n - 1, v);
    } else {
      OnlyPublishingAddsVersions(states[n - 1], steps[n - 1], v);
      k := n - 1;
    }
  }

  lemma PublishingAddsTheVersion(states: seq<Tables>, steps: seq<Step>, k: nat, v: Id)
    requires Run(states, steps) && Publishes(states, steps, k, v)
    ensures v !in states[k].versions && v in states[k + 1].versions
  {
  }

  lemma NotPublishedAgain(states: seq<Tables>, steps: seq<Step>, k: nat, v: Id)
    requires Run(states, steps) && k < |states| && v in states[k].versions
    ensures !Publishes(states, steps, k, v)
  {
  }

  lemma PublishedOnce(states: seq<Tables>, steps: seq<Step>, j: nat, k: nat, v: Id)
    requires Run(states, steps) && Publishes(states, steps, j, v) && Publishes(states, steps, k, v)
    ensures j == k
  {
    hide Next, PublishVerdict, Possible;
    PublishingAddsTheVersion(states, steps, j, v);
    PublishingAddsTheVersion(states, steps, k, v);
    if j < k {
      RunsContinue(states, steps, j + 1, k);
    } else if k < j {
      RunsContinue(states, steps, k + 1, j);
    }
  }

  // --- Search documents ---------------------------------------------------------------------------------

  /** Version v was filed under another namespace than its skill's at step k, and no ownership
      update has moved its skill between then and state n. */
  ghost predicate MisfiledSince(states: seq<Tables>, steps: seq<Step>, k: nat, n: nat, v: Id)
    requires Run(states, steps) && n < |states|
  {
    && k < n && Publishes(states, steps, k, v) && NamesAnotherNamespace(states[k], steps[k])
    && forall j | k < j < n :: !Moves(states[j], steps[j], v)
  }

  ghost predicate Misfiled(states: seq<Tables>, steps: seq<Step>, n: nat, v: Id)
    requires Run(states, steps) && n < |states|
  {
    exists k: nat :: MisfiledSince(states, steps, k, n, v)
  }

  lemma MisfiledSinceGrows(states: seq<Tables>, steps: seq<Step>, k: nat, n: nat, v: Id)
    requires Run(states, steps) && n < |steps| && n + 1 < |states| && !Publishes(states, steps, n, v)
    ensures MisfiledSince(states, steps, k, n + 1, v)
      <==> MisfiledSince(states, steps, k, n, v) && !Moves(states[n], steps[n], v)
  {
    hide Run, Publishes, NamesAnotherNamespace, Moves;
  }

  lemma StepTaken(states: seq<Tables>, steps: seq<Step>, n: nat)
    requires Run(states, steps) && n < |steps|
    ensures |states| == |steps| + 1 && Possible(states[n], steps[n]) && states[n + 1] == Next(states[n], steps[n])
  {
  }

  lemma MisfiledBefore(states: seq<Tables>, steps: seq<Step>, n: nat, v: Id)
    requires Run(states, steps) && n < |steps| && v in states[n].versions
    ensures Misfiled(states, steps, n + 1, v) <==> Misfiled(states, steps, n, v) && !Moves(states[n], steps[n], v)
  {
    NotPublishedAgain(states, steps, n, v);
    StepTaken(states, steps, n);
    hide Run, Next, Possible, Publishes, MisfiledSince, Moves;
    if Misfiled(states, steps, n + 1, v) {
      var k: nat :| MisfiledSince(states, steps, k, n + 1, v);
      MisfiledSinceGrows(states, steps, k, n, v);
    }
    if Misfiled(states, steps, n, v) {
      var k: nat :| MisfiledSince(states, steps, k, n, v);
      MisfiledSinceGrows(states, steps, k, n, v);
    }
  }

  lemma MisfiledAtOnce(states: seq<Tables>, steps: seq<Step>, n: nat, v: Id)
    requires Run(states, steps) && Publishes(states, steps, n, v)
    ensures Misfiled(states, steps, n + 1, v) <==> NamesAnotherNamespace(states[n], steps[n])
  {
    hide NamesAnotherNamespace, PublishVerdict, Moves;
    if Misfiled(states, steps, n + 1, v) {
      var k: nat :| MisfiledSince(states, steps, k, n + 1, v);
      PublishedOnce(states, steps, k, n, v);
    }
    if NamesAnotherNamespace(states[n], steps[n]) {
      assert MisfiledSince(states, steps, n, n + 1, v);
    }
  }

  lemma NothingAtTheStart(states: seq<Tables>, steps: seq<Step>, v: Id)
    requires Run(states, steps)
    ensures |states| == |steps| + 1 && v !in states[0].versions
  {
  }

  lemma PublishStepAndItsDocument(t: Tables, step: Step)
    requires Current(t) && Possible(t, step) && step.CreateVersion?
      && PublishVerdict(t, step.record, step.ids).Accepted?
    ensures Agrees(Next(t, step), step.ids.version) <==> !NamesAnotherNamespace(t, step)
  {
    PublishAndItsDocument(t, step.record, step.ids, step.now);
  }

  /** A document equals the projection of its sources unless the version was published under
      another namespace than its skill's and the skill has not been moved since: both ways, for every
      version of every reachable state. */
  lemma {:induction false} DocumentAgreesIff(states: seq<Tables>, steps: seq<Step>, n: nat, v: Id)
    requires Run(states, steps) && n < |states| && v in states[n].versions
    ensures Agrees(states[n], v) <==> !Misfiled(states, steps, n, v)
  {
    hide Next, Run, PublishVerdict, Agrees, Moves, NamesAnotherNamespace, Sound, Misfiled, Possible;
    NothingAtTheStart(states, steps, v);
    DocumentsAreCurrent(states, steps, n - 1);
    StepTaken(states, steps, n - 1);
    var t, step := states[n - 1], steps[n - 1];
    if v in t.versions {
      DocumentAgreesIff(states, steps, n - 1, v);
      StepAndDocument(t, step, v);
      MisfiledBefore(states, steps, n - 1, v);
    } else {
      OnlyPublishingAddsVersions(t, step, v);
      PublishStepAndItsDocument(t, step);
      MisfiledAtOnce(states, steps, n - 1, v);
    }
  }

  /** The search documents mirror their sources at every moment of a run exactly when no accepted
      publish names another namespace than the one its existing skill lives in. */
  lemma IndexMirrorsSourcesIff(states: seq<Tables>, steps: seq<Step>)
    requires Run(states, steps)
    ensures (forall n: nat, v | n < |states| && v in states[n].versions :: Agrees(states[n], v))
      <==> forall k: nat | k < |steps| :: !NamesAnotherNamespace(states[k], steps[k])
  {
    hide Next, Possible, Agrees, Moves, Current, Schema;
    forall k: nat | k < |steps| && NamesAnotherNamespace(states[k], steps[k])
      ensures exists n: nat, v :: n < |states| && v in states[n].versions && !Agrees(states[n], v) {
      var v := steps[k].ids.version;
      assert Publishes(states, steps, k, v);
      PublishingAddsTheVersion(states, steps, k, v);
      DocumentAgreesIff(states, steps, k + 1, v);
      MisfiledAtOnce(states, steps, k, v);
      assert k + 1 < |states| && v in states[k + 1].versions && !Agrees(states[k + 1], v);
    }
    forall n: nat, v | n < |states| && v in states[n].versions && !Agrees(states[n], v)
      ensures exists k: nat :: k < |steps| && NamesAnotherNamespace(states[k], steps[k]) {
      DocumentAgreesIff(states, steps, n, v);
      var k: nat :| MisfiledSince(states, steps, k, n, v);
      assert k < |steps| && NamesAnotherNamespace(states[k], steps[k]);
    }
  }

  function Draft(version: string, namespace: string, m: Metadata): CreateRecord {
    var r := Relationships([], [], [], []);
    CreateRecord(
      PublishRecord("lint", version, Sha256("bundle"), m, Untrusted, None, namespace, Approved, Prod, None, Flatten(r)),
      r, "bundle", InternalArtifact)
  }

  lemma DraftIsWellBuilt(version: string, namespace: string, m: Metadata)
    ensures WellBuilt(Draft(version, namespace, m))
  {
  }

  const TWO_NAMESPACES: Tables := EMPTY.(namespaces := map[1 := "a", 2 := "b"])

  lemma TwoNamespaces()
    ensures Next(Next(EMPTY, CreateNamespace("a", 1)), CreateNamespace("b", 2)) == TWO_NAMESPACES
  {
    assert "a"[0] != "b"[0];
    var s1 := Next(EMPTY, CreateNamespace("a", 1));
    assert s1 == EMPTY.(namespaces := map[1 := "a"]);
  }

  lemma FirstVersion(m: Metadata)
    ensures var t := Next(TWO_NAMESPACES, CreateVersion(Draft("1.0.0", "a", m), Ids(1, 1, 1), 0));
      && t.namespaces == TWO_NAMESPACES.namespaces
      && t.skills == map[1 := SkillRow("lint", 1, 0)]
      && t.contents.Keys == {1}
      && t.versions.Keys == {1} && t.versions[1].version == "1.0.0" && t.versions[1].skill == 1
  {
    hide VersionChecksumDigest;
    assert 1 in TWO_NAMESPACES.namespaces && TWO_NAMESPACES.namespaces[1] == "a";
    assert "a"[0] != "b"[0];
    assert NamespaceOf(TWO_NAMESPACES, "a") == Some(1);
  }

  lemma FirstVersionIsLinked(m: Metadata)
    ensures ForeignKeys(Next(TWO_NAMESPACES, CreateVersion(Draft("1.0.0", "a", m), Ids(1, 1, 1), 0)))
  {
    hide AfterPublish, VersionChecksumDigest, Draft, WellBuilt;
    DraftIsWellBuilt("1.0.0", "a", m);
    assert "a"[0] != "b"[0];
    PublishKeepsSound(TWO_NAMESPACES, Draft("1.0.0", "a", m), Ids(1, 1, 1), 0);
  }

  lemma SecondVersion(t: Tables, m: Metadata)
    requires ForeignKeys(t) && t.namespaces == TWO_NAMESPACES.namespaces && t.skills == map[1 := SkillRow("lint", 1, 0)]
    requires t.versions.Keys == {1} && t.versions[1].version == "1.0.0" && t.versions[1].skill == 1
    ensures NamesAnotherNamespace(t, CreateVersion(Draft("2.0.0", "b", m), Ids(2, 2, 2), 0))
  {
    assert 1 in t.skills && t.skills[1].slug == "lint";
    assert SkillOf(t, "lint") == Some(1);
    assert "1.0.0"[0] != "2.0.0"[0] && "a"[0] != "b"[0];
    assert VersionOf(t, "lint", "2.0.0").None?;
  }

  lemma OneNamespace()
    ensures Next(EMPTY, CreateNamespace("a", 1)).namespaces == map[1 := "a"]
  {
  }

  lemma AcceptedByName(t: Tables, step: Step)
    requires NamesAnotherNamespace(t, step)
    ensures step.CreateVersion? && PublishVerdict(t, step.record, step.ids).Accepted?
  {
  }

  lemma TwoPublications(m: Metadata) returns (states: seq<Tables>, steps: seq<Step>)
    ensures Run(states, steps) && |states| == 5
    ensures Publishes(states, steps, 3, 2) && NamesAnotherNamespace(states[3], steps[3])
  {
    hide Next, PublishVerdict, VersionChecksumDigest, NamesAnotherNamespace, Draft, WellBuilt, ForeignKeys;
    DraftIsWellBuilt("1.0.0", "a", m);
    DraftIsWellBuilt("2.0.0", "b", m);
    var first, second := CreateVersion(Draft("1.0.0", "a", m), Ids(1, 1, 1), 0),
      CreateVersion(Draft("2.0.0", "b", m), Ids(2, 2, 2), 0);
    steps := [CreateNamespace("a", 1), CreateNamespace("b", 2), first, second];
    var s1 := Next(EMPTY, CreateNamespace("a", 1));
    var s3 := Next(TWO_NAMESPACES, first);
    TwoNamespaces();
    FirstVersion(m);
    FirstVersionIsLinked(m);
    OneNamespace();
    states := [EMPTY, s1, TWO_NAMESPACES, s3, Next(s3, second)];
    SecondVersion(s3, m);
    AcceptedByName(s3, second);
  }

  /** The condition matters: the second version of a skill, published under another existing
      namespace, gets a document that contradicts its source. */
  lemma ADocumentCanBeMisfiled(m: Metadata) returns (states: seq<Tables>, steps: seq<Step>)
    ensures Run(states, steps) && |states| == 5
    ensures 2 in states[4].versions && !Agrees(states[4], 2)
  {
    states, steps := TwoPublications(m);
    hide Run, Next, PublishVerdict, Agrees, NamesAnotherNamespace, Misfiled, Publishes;
    PublishingAddsTheVersion(states, steps, 3, 2);
    MisfiledAtOnce(states, steps, 3, 2);
    DocumentAgreesIff(states, steps, 4, 2);
  }

  // --- Stored versions against their publications ---------------------------------------------------

  /** The publish record as an auditor would rebuild it from the stored rows of v. */
  ghost function StoredFacts(t: Tables, v: Id): PublishRecord
    requires Sound(t) && v in t.versions
  {
    var row := t.versions[v];
    var skill := t.skills[row.skill];
    PublishRecord(skill.slug, row.version, t.contents[row.content].digest, row.metadata, row.trustTier, row.provenance,
                  t.namespaces[skill.namespace], row.reviewState, row.channel, PackSlug(t, row.pack), t.selectors[v])
  }

  /** Everything a publication fixes for good. */
  ghost predicate Holds(t: Tables, v: Id, r: CreateRecord, now: int) {
    && Sound(t) && v in t.versions && t.versions[v].origin == r.origin && t.versions[v].publishedAt == now
    && StoredFacts(t, v) == r.facts.(trustTier := t.versions[v].trustTier, namespace := StoredFacts(t, v).namespace,
         reviewState := t.versions[v].reviewState, channel := t.versions[v].channel,
           policyPackSlug := StoredFacts(t, v).policyPackSlug)
    && t.contents[t.versions[v].content].payload == r.payload
    && t.versions[v].checksum == VersionChecksumDigest(r.facts)
  }

  lemma PublishStores(t: Tables, step: Step)
    requires Sound(t) && Possible(t, step) && step.CreateVersion? && PublishVerdict(t, step.record, step.ids).Accepted?
    ensures Holds(Next(t, step), step.ids.version, step.record, step.now)
  {
    hide VersionChecksumDigest, UniqueNames, UniqueCoordinates;
    StepKeepsSound(t, step);
  }

  lemma LaterStillHolds(t: Tables, u: Tables, v: Id, r: CreateRecord, now: int)
    requires Holds(t, v, r, now) && Sound(u) && Continues(t, u)
    ensures Holds(u, v, r, now)
  {
    hide VersionChecksumDigest, UniqueNames, UniqueCoordinates, ContentsSound;
  }

  /** At any later moment the version still carries its published payload, coordinates, metadata,
      provenance, selectors and checksum, whichever versions share its content row. */
  lemma PublishedForGood(states: seq<Tables>, steps: seq<Step>, k: nat, n: nat, v: Id)
    requires Run(states, steps) && Publishes(states, steps, k, v) && k < n < |states|
    ensures Holds(states[n], v, steps[k].record, steps[k].now)
  {
    hide Next, Possible, PublishVerdict, Sound, Continues, Holds;
    StepTaken(states, steps, k);
    RunsAreSound(states, steps, k);
    RunsAreSound(states, steps, n);
    PublishStores(states[k], steps[k]);
    RunsContinue(states, steps, k + 1, n);
    LaterStillHolds(states[k + 1], states[n], v, steps[k].record, steps[k].now);
  }

  /** Recomputing the version checksum from the stored rows gives the stored checksum exactly when
      the trust tier is the one the version was published with. */
  lemma ChecksumCanBeRecomputedIff(states: seq<Tables>, steps: seq<Step>, k: nat, n: nat, v: Id)
    requires Run(states, steps) && Publishes(states, steps, k, v) && k < n < |states|
    ensures Sound(states[n]) && v in states[n].versions
    ensures VersionChecksumDigest(StoredFacts(states[n], v)) == states[n].versions[v].checksum
      <==> states[n].versions[v].trustTier == steps[k].record.facts.trustTier
  {
    hide Next, Possible, PublishVerdict, Schema, ContentsSound, VersionChecksumDigest;
    PublishedForGood(states, steps, k, n, v);
    var published := steps[k].record.facts;
    ChecksumIdentifiesAuthoredFacts(StoredFacts(states[n], v), published);
    GroupingForgetsInterleaving(published.relationships, published.relationships);
  }

  /** Two stored versions have the same payload exactly when they share a content row. */
  lemma EqualPayloadsShareOneRow(states: seq<Tables>, steps: seq<Step>, n: nat, v: Id, w: Id)
    requires Run(states, steps) && n < |states| && v in states[n].versions && w in states[n].versions
    ensures Sound(states[n])
    ensures var t := states[n];
      (t.contents[t.versions[v].content].payload == t.contents[t.versions[w].content].payload)
        <==> (t.versions[v].content == t.versions[w].content)
  {
    RunsAreSound(states, steps, n);
  }

  // --- Installs ------------------------------------------------------------------------------------------

  ghost predicate Installs(t: Tables, step: Step, s: Id) {
    step.RecordInstall? && VersionOf(t, step.slug, step.version).Some?
    && OfSkill(t, VersionOf(t, step.slug, step.version).value, s)
  }

  ghost function InstallSteps(states: seq<Tables>, steps: seq<Step>, n: nat, s: Id): set<nat>
    requires Run(states, steps) && n < |states|
  {
    set k: nat | k < n && Installs(states[k], steps[k], s)
  }

  lemma OtherStepsInstallNothing(t: Tables, step: Step, s: Id)
    requires Sound(t) && Possible(t, step) && s in Next(t, step).skills && !step.RecordInstall?
    ensures Next(t, step).skills[s].installs == if s in t.skills then t.skills[s].installs else 0
  {
    hide UniqueNames, UniqueCoordinates, ContentsSound, BuildSearchDocument, PublishedRow, PublishVerdict, AfterInstall;
  }

  lemma StepAndInstalls(t: Tables, step: Step, s: Id)
    requires Sound(t) && Possible(t, step) && s in Next(t, step).skills
    ensures var before := if s in t.skills then t.skills[s].installs else 0;
      Next(t, step).skills[s].installs == before + if Installs(t, step, s) then 1 else 0
  {
    if step.RecordInstall? {
      hide UniqueNames, UniqueCoordinates, ContentsSound, AfterPublish, AfterStatus, AfterOwnership, AfterGovernance;
    } else {
      OtherStepsInstallNothing(t, step, s);
    }
  }

  lemma NoInstallsBeforeTheSkill(states: seq<Tables>, steps: seq<Step>, n: nat, s: Id)
    requires Run(states, steps) && n < |states| && s !in states[n].skills
    ensures InstallSteps(states, steps, n, s) == {}
  {
    hide Next, Possible;
    forall k: nat | k < n ensures !Installs(states[k], steps[k], s) {
      RunsContinue(states, steps, k, n);
      RunsAreSound(states, steps, k);
    }
  }

  /** The install counter of a skill is the number of recorded installs of its versions. */
  lemma {:induction false} InstallsAreCounted(states: seq<Tables>, steps: seq<Step>, n: nat, s: Id)
    requires Run(states, steps) && n < |states| && s in states[n].skills
    ensures states[n].skills[s].installs == |InstallSteps(states, steps, n, s)|
  {
    hide Next, Possible, Sound;
    var t, step := states[n - 1], steps[n - 1];
    StepTaken(states, steps, n - 1);
    RunsAreSound(states, steps, n - 1);
    StepAndInstalls(t, step, s);
    var before := InstallSteps(states, steps, n - 1, s);
    assert InstallSteps(states, steps, n, s) == if Installs(t, step, s) then before + {n - 1} else before;
    if s in t.skills {
      InstallsAreCounted(states, steps, n - 1, s);
    } else {
      NoInstallsBeforeTheSkill(states, steps, n - 1, s);
    }
  }
}
