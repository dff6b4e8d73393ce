/** The repository class: each method is one committed transaction over the catalogue tables. */
module CatalogueStore {
  import opened Catalogue
  import opened CatalogueLaws
  import opened Collections
  import opened Governance
  import opened VersionChecksum

  lemma FoundNamespace(t: Tables, slug: string, n: Id)
    requires UniqueNames(t) && n in t.namespaces && t.namespaces[n] == slug
    ensures NamespaceOf(t, slug) == Some(n)
  {
  }

  lemma FoundPack(t: Tables, slug: string, p: Id)
    requires UniqueNames(t) && p in t.packs && t.packs[p].slug == slug
    ensures PackOf(t, slug) == Some(p)
  {
  }

  lemma FoundSkill(t: Tables, slug: string, s: Id)
    requires UniqueNames(t) && s in t.skills && t.skills[s].slug == slug
    ensures SkillOf(t, slug) == Some(s)
  {
  }

  lemma FoundContent(t: Tables, c: Id)
    requires UniqueNames(t) && c in t.contents
    ensures ContentOf(t, t.contents[c].digest) == Some(c)
  {
  }

  lemma FoundVersion(t: Tables, slug: string, version: string, v: Id)
    requires Schema(t) && Names(t, v, slug, version)
    ensures VersionOf(t, slug, version) == Some(v)
  {
  }

  /** The id sequence is ahead of every id in use. */
  ghost predicate IdsBelow(t: Tables, n: Id) {
    && (forall x | x in t.namespaces :: x < n)
    && (forall x | x in t.packs :: x < n)
    && (forall x | x in t.skills :: x < n)
    && (forall x | x in t.contents :: x < n)
    && (forall x | x in t.versions :: x < n)
  }

  lemma WithSkillIds(t: Tables, r: CreateRecord, unused: Id)
    ensures WithSkill(t, r, unused).skills.Keys <= t.skills.Keys + {unused}
  {
  }

  lemma WithContentIds(t: Tables, r: CreateRecord, unused: Id)
    ensures WithContent(t, r, unused).contents.Keys <= t.contents.Keys + {unused}
  {
  }

  lemma PublishUsesTheSequence(t: Tables, r: CreateRecord, n: Id, now: int)
    requires IdsBelow(t, n)
    ensures Unused(t, Ids(n, n + 1, n + 2))
    ensures IdsBelow(AfterPublish(t, r, Ids(n, n + 1, n + 2), now), n + 3)
  {
    hide BuildSearchDocument, PublishedRow, PublishVerdict, WithSkill, WithContent;
    var u := WithSkill(t, r, n);
    WithSkillRest(t, r, n);
    WithSkillIds(t, r, n);
    WithContentRest(u, r, n + 1);
    WithContentIds(u, r, n + 1);
  }

  lemma NamespaceUsesTheSequence(t: Tables, slug: string, n: Id)
    requires IdsBelow(t, n)
    ensures n !in t.namespaces && IdsBelow(AfterNamespace(t, slug, n), n + 1)
  {
  }

  lemma PackUsesTheSequence(t: Tables, slug: string, rules: string, n: Id)
    requires IdsBelow(t, n)
    ensures n !in t.packs && IdsBelow(AfterPack(t, slug, rules, n), n + 1)
  {
  }

  lemma UpdatesUseNoId(t: Tables, step: Step, n: Id)
    requires IdsBelow(t, n)
      && (step.UpdateStatus? || step.UpdateOwnership? || step.UpdateGovernance? || step.RecordInstall?)
    ensures IdsBelow(Next(t, step), n)
  {
    hide AfterPublish, AfterNamespace, AfterPack, Changed, SyncedGovernance;
  }

  lemma StagedTables(t: Tables, r: CreateRecord, ids: Ids)
    ensures WithContent(WithSkill(t, r, ids.skill), r, ids.content)
         == t.(skills := WithSkill(t, r, ids.skill).skills, contents := WithContent(t, r, ids.content).contents)
  {
    WithSkillRest(t, r, ids.skill);
    assert ContentOf(WithSkill(t, r, ids.skill), r.facts.contentDigest).Some?
      <==> ContentOf(t, r.facts.contentDigest).Some?;
  }

  lemma CurrentMeetsTheSchema(t: Tables)
    requires Current(t)
    ensures Schema(t) && UniqueNames(t)
  {
  }

  // --- Lookups of a transaction -------------------------------------------------------------------

  method FindVersion(t: Tables, slug: string, version: string) returns (r: Option<Id>)
    requires Schema(t)
    ensures r == VersionOf(t, slug, version)
  {
    if exists v | v in t.versions :: Names(t, v, slug, version) {
      var v :| v in t.versions && Names(t, v, slug, version);
      FoundVersion(t, slug, version, v);
      return Some(v);
    }
    r := None;
  }

  method FindSkill(t: Tables, slug: string) returns (r: Option<Id>)
    requires UniqueNames(t)
    ensures r == SkillOf(t, slug)
  {
    if exists s | s in t.skills :: t.skills[s].slug == slug {
      var s :| s in t.skills && t.skills[s].slug == slug;
      FoundSkill(t, slug, s);
      return Some(s);
    }
    r := None;
  }

  method FindNamespace(t: Tables, slug: string) returns (r: Option<Id>)
    requires UniqueNames(t)
    ensures r == NamespaceOf(t, slug)
  {
    if exists n | n in t.namespaces :: t.namespaces[n] == slug {
      var n :| n in t.namespaces && t.namespaces[n] == slug;
      FoundNamespace(t, slug, n);
      return Some(n);
    }
    r := None;
  }

  method FindPack(t: Tables, slug: string) returns (r: Option<Id>)
    requires UniqueNames(t)
    ensures r == PackOf(t, slug)
  {
    if exists p | p in t.packs :: t.packs[p].slug == slug {
      var p :| p in t.packs && t.packs[p].slug == slug;
      FoundPack(t, slug, p);
      return Some(p);
    }
    r := None;
  }

  method FindContent(t: Tables, digest: Hashing.Digest) returns (r: Option<Id>)
    requires UniqueNames(t)
    ensures r == ContentOf(t, digest)
  {
    if exists c | c in t.contents :: t.contents[c].digest == digest {
      var c :| c in t.contents && t.contents[c].digest == digest;
      FoundContent(t, c);
      return Some(c);
    }
    r := None;
  }

  /** The skills table as the transaction would leave it, or `None` when the namespace of a new
      skill is unknown. */
  method GetOrCreateSkill(t: Tables, r: CreateRecord, unused: Id) returns (id: Id, staged: Option<map<Id, SkillRow>>)
    requires UniqueNames(t)
    ensures staged.None? <==> SkillOf(t, r.facts.slug).None? && NamespaceOf(t, r.facts.namespace).None?
    ensures staged.Some? ==>
      staged.value == WithSkill(t, r, unused).skills && id == OrFresh(SkillOf(t, r.facts.slug), unused)
  {
    var existing := FindSkill(t, r.facts.slug);
    if existing.Some? {
      return existing.value, Some(t.skills);
    }
    var namespace := FindNamespace(t, r.facts.namespace);
    id := unused;
    staged := if namespace.None? then None else Some(t.skills[unused := SkillRow(r.facts.slug, namespace.value, 0)]);
  }

  method GetOrCreateContent(t: Tables, r: CreateRecord, unused: Id) returns (id: Id, staged: map<Id, ContentRow>)
    requires UniqueNames(t)
    ensures staged == WithContent(t, r, unused).contents && id == OrFresh(ContentOf(t, r.facts.contentDigest), unused)
  {
    var existing := FindContent(t, r.facts.contentDigest);
    if existing.Some? {
      return existing.value, t.contents;
    }
    id, staged := unused, t.contents[unused := ContentRow(r.payload, |r.payload|, r.facts.contentDigest)];
  }

  /** The rows of a publish, staged on the transaction's view; any refusal leaves the view as it
      was, and the duplicate coordinate is found last, by the unique constraint. */
  method StagePublish(t: Tables, r: CreateRecord, ids: Ids, now: int) returns (outcome: PublishOutcome, staged: Tables)
    requires Schema(t)
    ensures staged == AfterPublish(t, r, ids, now) && outcome == PublishVerdict(t, r, ids)
  {
    hide ForeignKeys, UniqueNames, UniqueCoordinates, WithSkill, WithContent, BuildSearchDocument,
      VersionChecksumDigest;
    staged := t;
    var facts := r.facts;
    var skillId, stagedSkills := GetOrCreateSkill(t, r, ids.skill);
    if stagedSkills.None? {
      return NamespaceNotFound, t;
    }
    var contentId, stagedContents := GetOrCreateContent(t, r, ids.content);
    var pack: Option<Id> := None;
    if facts.policyPackSlug.Some? {
      pack := FindPack(t, facts.policyPackSlug.value);
      if pack.None? {
        return PackNotFound, t;
      }
    }
    var duplicate := FindVersion(t, facts.slug, facts.version);
    if duplicate.Some? {
      return DuplicateVersion, t;
    }
    StagedTables(t, r, ids);
    var row := VersionRow(
      skillId, facts.version, contentId, facts.metadata, VersionChecksumDigest(facts), facts.provenance, r.origin, now,
      Published, facts.trustTier, facts.reviewState, facts.channel, pack);
    var document := BuildSearchDocument(r, now);
    staged := WithVersion(t.(skills := stagedSkills.value, contents := stagedContents), ids.version, row,
      facts.relationships, document);
    outcome := Accepted(ids.version);
  }

  lemma PublishKeepsOtherTables(t: Tables, r: CreateRecord, ids: Ids, now: int)
    ensures AfterPublish(t, r, ids, now).namespaces == t.namespaces && AfterPublish(t, r, ids, now).packs == t.packs
  {
    hide PublishVerdict, WithSkill, WithContent, PublishedRow, BuildSearchDocument;
    WithSkillRest(t, r, ids.skill);
    WithContentRest(WithSkill(t, r, ids.skill), r, ids.content);
  }

  lemma PublishKeepsCurrent(t: Tables, r: CreateRecord, ids: Ids, now: int)
    requires Current(t) && Unused(t, ids) && WellBuilt(r)
    ensures Current(AfterPublish(t, r, ids, now))
  {
    hide AfterPublish, Current;
    StepKeepsCurrent(t, Catalogue.Step.CreateVersion(r, ids, now));
  }

  /** The `is not None` assignments of a governance update. */
  method AssignPresent(stored: VersionRow, c: Change) returns (row: VersionRow)
    ensures row == stored.(reviewState := OrKeep(c.reviewState, stored.reviewState),
      channel := OrKeep(c.channel, stored.channel), trustTier := OrKeep(c.trustTier, stored.trustTier))
  {
    row := stored;
    if c.reviewState.Some? { row := row.(reviewState := c.reviewState.value); }
    if c.channel.Some? { row := row.(channel := c.channel.value); }
    if c.trustTier.Some? { row := row.(trustTier := c.trustTier.value); }
  }

  class CatalogRepository {
    var namespaces: map<Id, string>
    var packs: map<Id, PackRow>
    var skills: map<Id, SkillRow>
    var contents: map<Id, ContentRow>
    var versions: map<Id, VersionRow>
    var selectors: map<Id, seq<Selectors.SelectorRow>>
    var documents: map<Id, Document>
    var sequence: Id

    function View(): Tables
      reads this
    {
      Tables(namespaces, packs, skills, contents, versions, selectors, documents)
    }

    ghost predicate Valid()
      reads this
    {
      Current(View()) && IdsBelow(View(), sequence)
    }

    constructor ()
      ensures Valid() && View() == EMPTY
    {
      namespaces, packs, skills, contents, versions, selectors, documents := map[], map[], map[], map[], map[], map[],
        map[];
      sequence := 1;
    }

    method CreateVersion(r: CreateRecord, now: int) returns (outcome: PublishOutcome)
      requires Valid() && WellBuilt(r)
      modifies this
      ensures Valid()
      ensures var ids := Ids(old(sequence), old(sequence) + 1, old(sequence) + 2);
        View() == AfterPublish(old(View()), r, ids, now) && outcome == PublishVerdict(old(View()), r, ids)
    {
      hide Current, IdsBelow, AfterPublish, PublishVerdict, Schema, Unused, WellBuilt;
      var t, ids := View(), Ids(sequence, sequence + 1, sequence + 2);
      CurrentMeetsTheSchema(t);
      PublishUsesTheSequence(t, r, sequence, now);
      PublishKeepsCurrent(t, r, ids, now);
      var staged;
      outcome, staged := StagePublish(t, r, ids, now);
      sequence := sequence + 3;
      skills, contents, versions := staged.skills, staged.contents, staged.versions;
      selectors, documents := staged.selectors, staged.documents;
      PublishKeepsOtherTables(t, r, ids, now);
    }

    method UpdateVersionStatus(slug: string, version: string, status: Lifecycle) returns (found: bool)
      requires Valid()
      modifies `versions, `documents
      ensures Valid()
      ensures View() == AfterStatus(old(View()), slug, version, status)
      ensures found == VersionOf(old(View()), slug, version).Some?
    {
      hide Current, IdsBelow, Schema;
      CurrentMeetsTheSchema(View());
      StepKeepsCurrent(View(), UpdateStatus(slug, version, status));
      UpdatesUseNoId(View(), UpdateStatus(slug, version, status), sequence);
      var entity := FindVersion(View(), slug, version);
      if entity.None? {
        return false;
      }
      var v := entity.value;
      versions := versions[v := versions[v].(lifecycle := status)];
      if v in documents {
        documents := documents[v := documents[v].(lifecycle := status)];
      }
      found := true;
    }

    method UpdateSkillOwnership(slug: string, namespace: string) returns (updated: Option<string>)
      requires Valid()
      modifies `skills, `documents
      ensures Valid()
      ensures View() == AfterOwnership(old(View()), slug, namespace)
      ensures updated == if SkillOf(old(View()), slug).Some? && NamespaceOf(old(View()), namespace).Some?
        then Some(namespace) else None
    {
      hide Current, IdsBelow, Schema, UniqueNames;
      CurrentMeetsTheSchema(View());
      StepKeepsCurrent(View(), UpdateOwnership(slug, namespace));
      UpdatesUseNoId(View(), UpdateOwnership(slug, namespace), sequence);
      var skill := FindSkill(View(), slug);
      var target := FindNamespace(View(), namespace);
      if skill.None? || target.None? {
        return None;
      }
      var s := skill.value;
      skills := skills[s := skills[s].(namespace := target.value)];
      documents := map d | d in documents ::
        if d in versions && versions[d].skill == s then documents[d].(namespace := namespace) else documents[d];
      assert documents == AfterOwnership(old(View()), slug, namespace).documents;
      updated := Some(namespace);
    }

    method UpdateVersionGovernance(slug: string, version: string, c: Change) returns (updated: bool)
      requires Valid()
      modifies `versions, `documents
      ensures Valid()
      ensures View() == AfterGovernance(old(View()), slug, version, c)
      ensures updated == (VersionOf(old(View()), slug, version).Some?
        && (c.packSlug.Some? ==> PackOf(old(View()), c.packSlug.value).Some?))
    {
      hide Current, IdsBelow, Schema, UniqueNames;
      CurrentMeetsTheSchema(View());
      StepKeepsCurrent(View(), UpdateGovernance(slug, version, c));
      UpdatesUseNoId(View(), UpdateGovernance(slug, version, c), sequence);
      var entity := FindVersion(View(), slug, version);
      if entity.None? {
        return false;
      }
      var v := entity.value;
      var row := AssignPresent(versions[v], c);
      var synced: Option<string> := None;
      if c.packSlug.Some? {
        var pack := FindPack(View(), c.packSlug.value);
        if pack.None? {
          return false;
        }
        row := row.(pack := pack);
        synced := c.packSlug;
      } else if row.pack.Some? && row.pack.value in packs {
        synced := Some(packs[row.pack.value].slug);
      }
      assert row == Changed(View(), versions[v], c);
      hide Changed, SyncedGovernance;
      versions := versions[v := row];
      if v in documents {
        documents := documents[v := SyncedGovernance(documents[v], row, synced)];
      }
      updated := true;
    }

    method RecordInstall(slug: string, version: string)
      requires Valid()
      modifies `skills
      ensures Valid()
      ensures View() == AfterInstall(old(View()), slug, version)
    {
      hide Current, IdsBelow, Schema;
      CurrentMeetsTheSchema(View());
      StepKeepsCurrent(View(), Catalogue.Step.RecordInstall(slug, version));
      UpdatesUseNoId(View(), Catalogue.Step.RecordInstall(slug, version), sequence);
      var entity := FindVersion(View(), slug, version);
      if entity.Some? {
        var s := versions[entity.value].skill;
        skills := skills[s := skills[s].(installs := skills[s].installs + 1)];
      }
    }

    method CreateNamespace(slug: string) returns (created: bool)
      requires Valid()
      modifies `namespaces, `sequence
      ensures Valid()
      ensures View() == AfterNamespace(old(View()), slug, old(sequence))
      ensures created == NamespaceOf(old(View()), slug).None?
    {
      hide Current, IdsBelow, Schema, UniqueNames;
      CurrentMeetsTheSchema(View());
      NamespaceUsesTheSequence(View(), slug, sequence);
      StepKeepsCurrent(View(), Catalogue.Step.CreateNamespace(slug, sequence));
      var existing := FindNamespace(View(), slug);
      created := existing.None?;
      if created {
        namespaces := namespaces[sequence := slug];
      }
      sequence := sequence + 1;
    }

    method UpsertPolicyPack(slug: string, rules: string)
      requires Valid()
      modifies `packs, `sequence
      ensures Valid()
      ensures View() == AfterPack(old(View()), slug, rules, old(sequence))
    {
      hide Current, IdsBelow, Schema, UniqueNames;
      CurrentMeetsTheSchema(View());
      PackUsesTheSequence(View(), slug, rules, sequence);
      StepKeepsCurrent(View(), UpsertPack(slug, rules, sequence));
      var existing := FindPack(View(), slug);
      var id := if existing.Some? then existing.value else sequence;
      packs := packs[id := PackRow(slug, rules)];
      sequence := sequence + 1;
    }
  }
}
