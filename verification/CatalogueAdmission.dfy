/** When a publish is accepted, and where a skill lives: said of the stored rows, and of the requests
    alone. */
module CatalogueAdmission {
  import opened Catalogue
  import opened CatalogueHistory
  import opened CatalogueLaws
  import opened CatalogueRequests
  import opened Collections

  // --- On the stored rows -------------------------------------------------------------------------

  ghost predicate HasSkill(t: Tables, slug: string) {
    exists s :: s in t.skills && t.skills[s].slug == slug
  }

  ghost predicate HasNamespace(t: Tables, slug: string) {
    exists n :: n in t.namespaces && t.namespaces[n] == slug
  }

  ghost predicate HasPack(t: Tables, slug: string) {
    exists p :: p in t.packs && t.packs[p].slug == slug
  }

  ghost predicate HasVersion(t: Tables, slug: string, version: string) {
    exists v ::
      && v in t.versions && t.versions[v].version == version
      && t.versions[v].skill in t.skills && t.skills[t.versions[v].skill].slug == slug
  }

  lemma NamesAreLookups(t: Tables, skill: string, namespace: string)
    ensures SkillOf(t, skill).Some? <==> HasSkill(t, skill)
    ensures NamespaceOf(t, namespace).Some? <==> HasNamespace(t, namespace)
  {
  }

  lemma PackIsLookup(t: Tables, slug: string)
    ensures PackOf(t, slug).Some? <==> HasPack(t, slug)
  {
  }

  lemma VersionIsLookup(t: Tables, slug: string, version: string)
    ensures VersionOf(t, slug, version).Some? <==> HasVersion(t, slug, version)
  {
    if HasVersion(t, slug, version) {
      var v :| v in t.versions && t.versions[v].version == version
        && t.versions[v].skill in t.skills && t.skills[t.versions[v].skill].slug == slug;
      assert Names(t, v, slug, version);
    }
  }

  /** How a publish ends: it needs its skill or its namespace, then its policy pack if it names one, and a
      coordinate that is not taken; the first that fails gives the answer. */
  lemma PublishEnds(t: Tables, r: CreateRecord, ids: Ids)
    ensures var verdict := PublishVerdict(t, r, ids);
      var home := HasSkill(t, r.facts.slug) || HasNamespace(t, r.facts.namespace);
      var packed := r.facts.policyPackSlug.Some? ==> HasPack(t, r.facts.policyPackSlug.value);
      var taken := HasVersion(t, r.facts.slug, r.facts.version);
      && (verdict.NamespaceNotFound? <==> !home)
      && (verdict.PackNotFound? <==> home && !packed)
      && (verdict.DuplicateVersion? <==> home && packed && taken)
      && (verdict.Accepted? <==> home && packed && !taken)
      && (verdict.Accepted? ==> verdict.version == ids.version)
  {
    NamesAreLookups(t, r.facts.slug, r.facts.namespace);
    VersionIsLookup(t, r.facts.slug, r.facts.version);
    if r.facts.policyPackSlug.Some? {
      PackIsLookup(t, r.facts.policyPackSlug.value);
    }
    hide HasSkill, HasNamespace, HasPack, HasVersion, SkillOf, NamespaceOf, PackOf, VersionOf;
  }

  // --- On the requests ----------------------------------------------------------------------------

  /** The publish at step n is accepted, judged by the requests before it: the namespace it names has been
      requested or its skill published before, a pack it names has been requested, and its coordinate has
      not been published. */
  ghost predicate Admitted(steps: seq<Step>, n: nat)
    decreases n
  {
    && n < |steps| && steps[n].CreateVersion?
    && var facts := steps[n].record.facts;
       && (NamespaceRequested(steps, n, facts.namespace)
           || exists k: nat ::
              k < n && Admitted(steps, k) && steps[k].CreateVersion? && steps[k].record.facts.slug == facts.slug)
       && (facts.policyPackSlug.Some? ==> PackRequested(steps, n, facts.policyPackSlug.value))
       && forall k: nat | k < n && Admitted(steps, k) && steps[k].CreateVersion? ::
            steps[k].record.facts.slug != facts.slug || steps[k].record.facts.version != facts.version
  }

  ghost predicate SkillPublished(steps: seq<Step>, n: nat, slug: string) {
    exists k: nat :: k < n && Admitted(steps, k) && steps[k].CreateVersion? && steps[k].record.facts.slug == slug
  }

  ghost predicate VersionPublished(steps: seq<Step>, n: nat, slug: string, version: string) {
    exists k: nat :: k < n && Admitted(steps, k) && steps[k].CreateVersion?
      && steps[k].record.facts.slug == slug && steps[k].record.facts.version == version
  }

  lemma AdmittedIff(steps: seq<Step>, n: nat)
    requires n < |steps| && steps[n].CreateVersion?
    ensures var facts := steps[n].record.facts;
      Admitted(steps, n) <==>
        && (NamespaceRequested(steps, n, facts.namespace) || SkillPublished(steps, n, facts.slug))
        && (facts.policyPackSlug.Some? ==> PackRequested(steps, n, facts.policyPackSlug.value))
        && !VersionPublished(steps, n, facts.slug, facts.version)
  {
  }

  /** Step k published the skill of that slug, whichever version. */
  ghost predicate PublishesSkill(states: seq<Tables>, steps: seq<Step>, k: nat, slug: string)
    requires Run(states, steps)
  {
    && k < |steps| && steps[k].CreateVersion? && steps[k].record.facts.slug == slug
    && PublishVerdict(states[k], steps[k].record, steps[k].ids).Accepted?
  }

  lemma SkillsOfPublish(t: Tables, r: CreateRecord, ids: Ids, now: int, s: Id)
    requires s in AfterPublish(t, r, ids, now).skills && s !in t.skills
    ensures PublishVerdict(t, r, ids).Accepted? && AfterPublish(t, r, ids, now).skills[s].slug == r.facts.slug
  {
    hide PublishVerdict, PublishedRow, BuildSearchDocument;
    WithContentRest(WithSkill(t, r, ids.skill), r, ids.content);
  }

  lemma StepAddsSkill(t: Tables, step: Step, s: Id)
    requires s in Next(t, step).skills && s !in t.skills
    ensures step.CreateVersion? && PublishVerdict(t, step.record, step.ids).Accepted?
    ensures Next(t, step).skills[s].slug == step.record.facts.slug
  {
    hide AfterPublish, PublishVerdict;
    if step.CreateVersion? {
      SkillsOfPublish(t, step.record, step.ids, step.now, s);
    }
  }

  lemma StepTakenBefore(states: seq<Tables>, steps: seq<Step>, n: nat)
    requires Run(states, steps) && n < |states| && states[n].skills != map[]
    ensures n > 0 && states[n] == Next(states[n - 1], steps[n - 1])
  {
  }

  lemma {:induction false} SkillWasPublished(states: seq<Tables>, steps: seq<Step>, n: nat, s: Id) returns (k: nat)
    requires Run(states, steps) && n < |states| && s in states[n].skills
    ensures k < n && PublishesSkill(states, steps, k, states[n].skills[s].slug)
  {
    hide Next, Possible, PublishVerdict;
    StepTakenBefore(states, steps, n);
    if s in states[n - 1].skills {
      k := SkillWasPublished(states, steps, n - 1, s);
      RunsContinue(states, steps, n - 1, n);
    } else {
      StepAddsSkill(states[n - 1], steps[n - 1], s);
      k := n - 1;
    }
  }

  lemma PublishedSkillStays(states: seq<Tables>, steps: seq<Step>, k: nat, n: nat)
    requires Run(states, steps) && k < n < |states| && k < |steps| && steps[k].CreateVersion?
    requires PublishVerdict(states[k], steps[k].record, steps[k].ids).Accepted?
    ensures HasVersion(states[n], steps[k].record.facts.slug, steps[k].record.facts.version)
    ensures HasSkill(states[n], steps[k].record.facts.slug)
  {
    hide Next, PublishVerdict;
    PublishedForGood(states, steps, k, n, steps[k].ids.version);
    var t, v := states[n], steps[k].ids.version;
    assert t.versions[v].skill in t.skills;
  }

  lemma VersionWasPublished(states: seq<Tables>, steps: seq<Step>, n: nat, slug: string, version: string)
    returns (k: nat)
    requires Run(states, steps) && n < |states| && HasVersion(states[n], slug, version)
    ensures k < n && k < |steps| && PublishesSkill(states, steps, k, slug) && steps[k].record.facts.version == version
  {
    hide Next, PublishVerdict;
    var t := states[n];
    var v :| v in t.versions && t.versions[v].version == version
      && t.versions[v].skill in t.skills && t.skills[t.versions[v].skill].slug == slug;
    k := EveryVersionWasPublished(states, steps, n, v);
    PublishedForGood(states, steps, k, n, v);
  }

  lemma RunLength(states: seq<Tables>, steps: seq<Step>)
    requires Run(states, steps)
    ensures |states| == |steps| + 1
  {
  }

  lemma SkillRow(t: Tables, slug: string) returns (s: Id)
    requires HasSkill(t, slug)
    ensures s in t.skills && t.skills[s].slug == slug
  {
    s :| s in t.skills && t.skills[s].slug == slug;
  }

  /** What is stored was admitted, and the other way round. */
  lemma StoredIsPublished(states: seq<Tables>, steps: seq<Step>, n: nat, slug: string, version: string)
    requires Run(states, steps) && n < |states|
    requires forall k: nat | k < n && k < |steps| && steps[k].CreateVersion? ::
      PublishVerdict(states[k], steps[k].record, steps[k].ids).Accepted? <==> Admitted(steps, k)
    ensures HasSkill(states[n], slug) <==> SkillPublished(steps, n, slug)
    ensures HasVersion(states[n], slug, version) <==> VersionPublished(steps, n, slug, version)
  {
    hide Next, Possible, PublishVerdict, HasVersion, HasSkill, Admitted;
    RunLength(states, steps);
    if HasSkill(states[n], slug) {
      var s := SkillRow(states[n], slug);
      var k := SkillWasPublished(states, steps, n, s);
    }
    if HasVersion(states[n], slug, version) {
      var k := VersionWasPublished(states, steps, n, slug, version);
    }
    if SkillPublished(steps, n, slug) {
      var k: nat :| k < n && Admitted(steps, k) && steps[k].CreateVersion? && steps[k].record.facts.slug == slug;
      PublishedSkillStays(states, steps, k, n);
    }
    if VersionPublished(steps, n, slug, version) {
      var k: nat :| k < n && Admitted(steps, k) && steps[k].CreateVersion?
        && steps[k].record.facts.slug == slug && steps[k].record.facts.version == version;
      PublishedSkillStays(states, steps, k, n);
    }
  }

  lemma NamespaceIsRequested(states: seq<Tables>, steps: seq<Step>, n: nat, slug: string)
    requires Run(states, steps) && n < |states|
    ensures HasNamespace(states[n], slug) <==> NamespaceRequested(steps, n, slug)
    ensures HasPack(states[n], slug) <==> PackRequested(steps, n, slug)
  {
    hide Run, NamespaceOf, PackOf, HasNamespace, HasPack, NamespaceRequested, PackRequested;
    NamesAreRequested(states, steps, n, slug);
    NamesAreLookups(states[n], slug, slug);
    PackIsLookup(states[n], slug);
  }

  /** In every run, how a publish ends is decided by the requests before it. */
  lemma {:induction false} PublishFollowsRequests(states: seq<Tables>, steps: seq<Step>, n: nat)
    requires Run(states, steps) && n < |steps| && n < |states| && steps[n].CreateVersion?
    ensures var verdict := PublishVerdict(states[n], steps[n].record, steps[n].ids);
      var facts := steps[n].record.facts;
      var home := NamespaceRequested(steps, n, facts.namespace) || SkillPublished(steps, n, facts.slug);
      var packed := facts.policyPackSlug.Some? ==> PackRequested(steps, n, facts.policyPackSlug.value);
      && (verdict.Accepted? <==> Admitted(steps, n))
      && (verdict.NamespaceNotFound? <==> !home)
      && (verdict.PackNotFound? <==> home && !packed)
      && (verdict.DuplicateVersion? <==> home && packed && VersionPublished(steps, n, facts.slug, facts.version))
  {
    var r := steps[n].record;
    forall k: nat | k < n && k < |steps| && steps[k].CreateVersion?
      ensures PublishVerdict(states[k], steps[k].record, steps[k].ids).Accepted? <==> Admitted(steps, k)
    {
      PublishFollowsRequests(states, steps, k);
    }
    hide Run, PublishVerdict, HasSkill, HasNamespace, HasPack, HasVersion, Admitted, SkillPublished, VersionPublished,
      NamespaceRequested, PackRequested;
    StoredIsPublished(states, steps, n, r.facts.slug, r.facts.version);
    NamespaceIsRequested(states, steps, n, r.facts.namespace);
    if r.facts.policyPackSlug.Some? {
      NamespaceIsRequested(states, steps, n, r.facts.policyPackSlug.value);
    }
    PublishEnds(states[n], r, steps[n].ids);
    AdmittedIff(steps, n);
  }

  /** With the namespace and the pack requested and the coordinate unused, a publish that names a policy pack
      is accepted. */
  lemma APackedPublishIsAccepted(states: seq<Tables>, steps: seq<Step>, n: nat)
    requires Run(states, steps) && n < |steps| && n < |states| && steps[n].CreateVersion?
    requires var facts := steps[n].record.facts;
      && NamespaceRequested(steps, n, facts.namespace)
      && facts.policyPackSlug.Some? && PackRequested(steps, n, facts.policyPackSlug.value)
      && forall k | 0 <= k < n && steps[k].CreateVersion? ::
           steps[k].record.facts.slug != facts.slug || steps[k].record.facts.version != facts.version
    ensures PublishVerdict(states[n], steps[n].record, steps[n].ids).Accepted?
  {
    PublishFollowsRequests(states, steps, n);
    AdmittedIff(steps, n);
    hide Run, PublishVerdict, Admitted, NamespaceRequested, PackRequested;
  }

  // --- Where a skill lives --------------------------------------------------------------------------

  /** The name of the namespace of a skill. */
  ghost function HomeOf(t: Tables, s: Id): string
    requires ForeignKeys(t) && s in t.skills
  {
    t.namespaces[t.skills[s].namespace]
  }

  /** Where the first n requests put a skill: the first admitted publish of its slug names the namespace, and
      later ownership requests that name a requested namespace move it. */
  ghost function RequestedHome(steps: seq<Step>, n: nat, slug: string): Option<string>
    requires n <= |steps|
  {
    if n == 0 then None
    else
      var before, step := RequestedHome(steps, n - 1, slug), steps[n - 1];
      if before.None? then
        if step.CreateVersion? && step.record.facts.slug == slug && Admitted(steps, n - 1)
          then Some(step.record.facts.namespace)
        else None
      else if step.UpdateOwnership? && step.slug == slug && NamespaceRequested(steps, n - 1, step.namespace) then
        Some(step.namespace)
      else before
  }

  lemma PublishHome(t: Tables, r: CreateRecord, ids: Ids, now: int, s: Id)
    requires Sound(t) && Unused(t, ids) && WellBuilt(r) && s in AfterPublish(t, r, ids, now).skills
    ensures ForeignKeys(AfterPublish(t, r, ids, now))
    ensures HomeOf(AfterPublish(t, r, ids, now), s) == if s in t.skills then HomeOf(t, s) else r.facts.namespace
  {
    PublishKeepsSound(t, r, ids, now);
    hide PublishVerdict, PublishedRow, BuildSearchDocument, UniqueNames, UniqueCoordinates, ContentsSound;
    WithSkillRest(t, r, ids.skill);
    WithContentRest(WithSkill(t, r, ids.skill), r, ids.content);
  }

  lemma OwnershipHome(t: Tables, slug: string, namespace: string, s: Id)
    requires Sound(t) && s in t.skills
    ensures var u := AfterOwnership(t, slug, namespace);
      && s in u.skills && ForeignKeys(u)
      && HomeOf(u, s) == if t.skills[s].slug == slug && NamespaceOf(t, namespace).Some? then namespace else HomeOf(t, s)
  {
    assert t.skills[s].slug == slug ==> SkillOf(t, slug) == Some(s);
  }

  lemma OtherStepsKeepHomes(t: Tables, step: Step, s: Id)
    requires Sound(t) && Possible(t, step) && !step.CreateVersion? && !step.UpdateOwnership?
    requires s in t.skills && Sound(Next(t, step)) && Continues(t, Next(t, step))
    ensures HomeOf(Next(t, step), s) == HomeOf(t, s)
  {
    hide AfterPublish, AfterOwnership, UniqueNames, UniqueCoordinates, ContentsSound;
    assert Next(t, step).skills[s].namespace == t.skills[s].namespace;
  }

  lemma StepHome(t: Tables, step: Step, s: Id)
    requires Sound(t) && Possible(t, step) && s in Next(t, step).skills
    ensures ForeignKeys(t) && ForeignKeys(Next(t, step))
    ensures HomeOf(Next(t, step), s) ==
      if s !in t.skills then (if step.CreateVersion? then step.record.facts.namespace else HomeOf(Next(t, step), s))
      else if step.UpdateOwnership? && step.slug == t.skills[s].slug && NamespaceOf(t, step.namespace).Some?
        then step.namespace
      else HomeOf(t, s)
  {
    StepKeepsSound(t, step);
    StepContinues(t, step);
    if step.CreateVersion? {
      PublishHome(t, step.record, step.ids, step.now, s);
    } else if step.UpdateOwnership? {
      if s in t.skills {
        OwnershipHome(t, step.slug, step.namespace, s);
      }
    } else if s in t.skills {
      OtherStepsKeepHomes(t, step, s);
    }
  }

  lemma NoSkills(states: seq<Tables>, steps: seq<Step>)
    requires Run(states, steps)
    ensures states[0].skills == map[]
  {
  }

  lemma SlugStays(t: Tables, u: Tables, slug: string)
    requires HasSkill(t, slug) && Continues(t, u) && UniqueNames(u)
    ensures HasSkill(u, slug) && forall s | s in u.skills && u.skills[s].slug == slug :: s in t.skills
  {
    var s := SkillRow(t, slug);
    assert u.skills[s].slug == slug;
  }

  lemma PublishedSlugIsStored(states: seq<Tables>, steps: seq<Step>, n: nat)
    requires Run(states, steps) && n < |steps| && n + 1 < |states| && steps[n].CreateVersion?
    ensures PublishVerdict(states[n], steps[n].record, steps[n].ids).Accepted? ==>
      HasSkill(states[n + 1], steps[n].record.facts.slug)
  {
    if PublishVerdict(states[n], steps[n].record, steps[n].ids).Accepted? {
      PublishedSkillStays(states, steps, n, n + 1);
    }
  }

  lemma NextHome(states: seq<Tables>, steps: seq<Step>, n: nat, slug: string)
    requires Run(states, steps) && n < |steps| && n + 1 < |states| && Sound(states[n]) && Sound(states[n + 1])
    requires !HasSkill(states[n], slug) ==> RequestedHome(steps, n, slug).None?
    requires forall s | s in states[n].skills && states[n].skills[s].slug == slug ::
      RequestedHome(steps, n, slug) == Some(HomeOf(states[n], s))
    ensures !HasSkill(states[n + 1], slug) ==> RequestedHome(steps, n + 1, slug).None?
    ensures var u := states[n + 1];
      forall s | s in u.skills && u.skills[s].slug == slug :: RequestedHome(steps, n + 1, slug) == Some(HomeOf(u, s))
  {
    var t, u, step := states[n], states[n + 1], steps[n];
    StepTaken(states, steps, n);
    StepContinues(t, step);
    hide Next, Possible, Run, PublishVerdict, Admitted, NamespaceRequested, UniqueCoordinates, ContentsSound,
      ForeignKeys, HomeOf;
    if step.CreateVersion? {
      PublishFollowsRequests(states, steps, n);
      PublishedSlugIsStored(states, steps, n);
    }
    if step.UpdateOwnership? {
      NamespaceIsRequested(states, steps, n, step.namespace);
      NamesAreLookups(t, slug, step.namespace);
    }
    if HasSkill(t, slug) {
      SlugStays(t, u, slug);
    }
    forall s | s in u.skills && u.skills[s].slug == slug
      ensures RequestedHome(steps, n + 1, slug) == Some(HomeOf(u, s))
    {
      StepHome(t, step, s);
      if s !in t.skills {
        StepAddsSkill(t, step, s);
      }
    }
  }

  /** In every run: a skill lives where the requests put it, and a slug without a skill has no home. */
  lemma {:induction false} SkillLivesWhereRequested(states: seq<Tables>, steps: seq<Step>, n: nat, slug: string)
    requires Run(states, steps) && n < |states|
    ensures n <= |steps| && Sound(states[n])
    ensures !HasSkill(states[n], slug) ==> RequestedHome(steps, n, slug).None?
    ensures forall s | s in states[n].skills && states[n].skills[s].slug == slug ::
      RequestedHome(steps, n, slug) == Some(HomeOf(states[n], s))
  {
    RunsAreSound(states, steps, n);
    RunLength(states, steps);
    hide Next, Possible, Admitted, HasSkill, HomeOf, Sound, NamespaceRequested, PublishVerdict, Run;
    if n == 0 {
      NoSkills(states, steps);
    } else {
      SkillLivesWhereRequested(states, steps, n - 1, slug);
      StepTaken(states, steps, n - 1);
      NextHome(states, steps, n - 1, slug);
    }
  }
}
