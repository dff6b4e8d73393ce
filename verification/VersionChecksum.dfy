/** The version checksum: which authored facts of a publish record it covers, and that it covers
    them without confusion. */
module VersionChecksum {
  import opened Collections
  import opened CanonicalJson
  import Governance
  import opened Hashing
  import opened Selectors

  datatype Provenance = Provenance(
    repoUrl: string,
    commitSha: string,
    treePath: Option<string>,
    publisherIdentity: Option<string>,
    policyProfile: Option<string>)

  /** Scores are the tokens their floating-point values print as. */
  datatype Metadata = Metadata(
    name: string,
    description: Option<string>,
    tags: seq<string>,
    tokenEstimate: Option<int>,
    maturityScore: Option<Lexeme>,
    securityScore: Option<Lexeme>,
    overallScore: Option<Lexeme>,
    assessment: Option<map<string, Json>>)

  datatype PublishRecord = PublishRecord(
    slug: string,
    version: string,
    contentDigest: Digest,
    metadata: Metadata,
    trustTier: Governance.TrustTier,
    provenance: Option<Provenance>,
    namespace: string,
    reviewState: Governance.ReviewState,
    channel: Governance.Channel,
    policyPackSlug: Option<string>,
    relationships: seq<SelectorRow>)

  // --- Integers in decimal ------------------------------------------------------------------------

  function Digits(n: nat): (s: string)
    ensures s != [] && forall i | 0 <= i < |s| :: IsDigit(s[i])
  {
    var last := '0' + (n % 10) as char;
    if n < 10 then [last] else Digits(n / 10) + [last]
  }

  function ValueOf(s: string): int {
    if s == [] then 0 else ValueOf(s[..|s| - 1]) * 10 + (s[|s| - 1] as int - '0' as int)
  }

  lemma {:induction false} DigitsReadBack(n: nat)
    ensures ValueOf(Digits(n)) == n
  {
    var s := Digits(n);
    if n < 10 {
      assert s[..|s| - 1] == [];
    } else {
      DigitsReadBack(n / 10);
      assert s[..|s| - 1] == Digits(n / 10);
    }
  }

  function Decimal(n: int): Lexeme {
    if n < 0 then
      var s := Digits(-n);
      assert forall i | 0 <= i < |['-'] + s| :: i > 0 ==> (['-'] + s)[i] == s[i - 1];
      ['-'] + s
    else Digits(n)
  }

  lemma DecimalIsInjective(m: int, n: int)
    ensures Decimal(m) == Decimal(n) <==> m == n
  {
    if Decimal(m) == Decimal(n) {
      assert m < 0 <==> Decimal(m)[0] == '-';
      assert n < 0 <==> Decimal(n)[0] == '-';
      if m < 0 {
        assert Decimal(m)[1..] == Digits(-m) && Decimal(n)[1..] == Digits(-n);
        DigitsReadBack(-m);
        DigitsReadBack(-n);
      } else {
        DigitsReadBack(m);
        DigitsReadBack(n);
      }
    }
  }

  // --- The hashed payload ---------------------------------------------------------------------------

  function TextOrNull(o: Option<string>): Json {
    match o case None => Null case Some(s) => String(s)
  }

  function ScoreOrNull(o: Option<Lexeme>): Json {
    match o case None => Null case Some(s) => Number(s)
  }

  function IntegerOrNull(o: Option<int>): Json {
    match o case None => Null case Some(n) => Number(Decimal(n))
  }

  function FlagOrNull(o: Option<bool>): Json {
    match o case None => Null case Some(b) => Boolean(b)
  }

  function TextArray(texts: seq<string>): Json {
    Array(seq(|texts|, i requires 0 <= i < |texts| => String(texts[i])))
  }

  function TrustTierName(t: Governance.TrustTier): string {
    match t case Untrusted => "untrusted" case Internal => "internal" case Verified => "verified"
  }

  function MetadataObject(m: Metadata): map<string, Json> {
    var fields := map[
      "name" := String(m.name),
      "description" := TextOrNull(m.description),
      "tags" := TextArray(m.tags),
      "token_estimate" := IntegerOrNull(m.tokenEstimate),
      "maturity_score" := ScoreOrNull(m.maturityScore),
      "security_score" := ScoreOrNull(m.securityScore),
      "overall_score" := ScoreOrNull(m.overallScore)];
    if m.assessment.Some? then fields["assessment" := Object(m.assessment.value)] else fields
  }

  function ProvenanceObject(o: Option<Provenance>): Json {
    match o
    case None => Null
    case Some(p) => Object(map[
      "repo_url" := String(p.repoUrl),
      "commit_sha" := String(p.commitSha),
      "tree_path" := TextOrNull(p.treePath),
      "publisher_identity" := TextOrNull(p.publisherIdentity),
      "policy_profile" := TextOrNull(p.policyProfile)])
  }

  function SelectorObject(s: Selector): Json {
    Object(map[
      "slug" := String(s.slug),
      "version" := TextOrNull(s.version),
      "version_constraint" := TextOrNull(s.versionConstraint),
      "optional" := FlagOrNull(s.optional),
      "markers" := TextArray(s.markers)])
  }

  function SelectorArray(selectors: seq<Selector>): Json {
    Array(seq(|selectors|, i requires 0 <= i < |selectors| => SelectorObject(selectors[i])))
  }

  function RelationshipsObject(r: Relationships): Json {
    Object(map[
      "depends_on" := SelectorArray(r.dependsOn),
      "extends" := SelectorArray(r.extending),
      "conflicts_with" := SelectorArray(r.conflictsWith),
      "overlaps_with" := SelectorArray(r.overlapsWith)])
  }

  function Payload(r: PublishRecord): Json {
    Object(map[
      "slug" := String(r.slug),
      "version" := String(r.version),
      "content_checksum_digest" := String(Hex(r.contentDigest)),
      "metadata" := Object(MetadataObject(r.metadata)),
      "governance" := Object(map[
        "trust_tier" := String(TrustTierName(r.trustTier)),
        "provenance" := ProvenanceObject(r.provenance)]),
      "relationships" := RelationshipsObject(Group(r.relationships))])
  }

  function VersionChecksumDigest(r: PublishRecord): Digest {
    Sha256(Print(Payload(r)))
  }

  // --- What the digest covers ------------------------------------------------------------------------

  lemma TextArrayIsInjective(a: seq<string>, b: seq<string>)
    requires TextArray(a) == TextArray(b)
    ensures a == b
  {
    var x, y := TextArray(a).items, TextArray(b).items;
    assert |a| == |x| == |y| == |b|;
    forall i | 0 <= i < |a| ensures a[i] == b[i] {
      assert x[i] == String(a[i]) && y[i] == String(b[i]);
    }
  }

  lemma SelectorObjectIsInjective(a: Selector, b: Selector)
    requires SelectorObject(a) == SelectorObject(b)
    ensures a == b
  {
    var x, y := SelectorObject(a).fields, SelectorObject(b).fields;
    assert x["slug"] == y["slug"] && x["version"] == y["version"];
    assert x["version_constraint"] == y["version_constraint"] && x["optional"] == y["optional"];
    assert x["markers"] == y["markers"];
    TextArrayIsInjective(a.markers, b.markers);
  }

  lemma SelectorArrayIsInjective(a: seq<Selector>, b: seq<Selector>)
    requires SelectorArray(a) == SelectorArray(b)
    ensures a == b
  {
    var x, y := SelectorArray(a).items, SelectorArray(b).items;
    assert |a| == |x| == |y| == |b|;
    forall i | 0 <= i < |a| ensures a[i] == b[i] {
      assert x[i] == SelectorObject(a[i]) && y[i] == SelectorObject(b[i]);
      SelectorObjectIsInjective(a[i], b[i]);
    }
  }

  lemma RelationshipsObjectIsInjective(a: Relationships, b: Relationships)
    requires RelationshipsObject(a) == RelationshipsObject(b)
    ensures a == b
  {
    var x, y := RelationshipsObject(a).fields, RelationshipsObject(b).fields;
    assert x["depends_on"] == y["depends_on"] && x["extends"] == y["extends"];
    assert x["conflicts_with"] == y["conflicts_with"] && x["overlaps_with"] == y["overlaps_with"];
    SelectorArrayIsInjective(a.dependsOn, b.dependsOn);
    SelectorArrayIsInjective(a.extending, b.extending);
    SelectorArrayIsInjective(a.conflictsWith, b.conflictsWith);
    SelectorArrayIsInjective(a.overlapsWith, b.overlapsWith);
  }

  lemma ProvenanceObjectIsInjective(a: Option<Provenance>, b: Option<Provenance>)
    requires ProvenanceObject(a) == ProvenanceObject(b)
    ensures a == b
  {
    if a.Some? {
      assert b.Some?;
      var x, y := ProvenanceObject(a).fields, ProvenanceObject(b).fields;
      assert x["repo_url"] == y["repo_url"] && x["commit_sha"] == y["commit_sha"];
      assert x["tree_path"] == y["tree_path"] && x["publisher_identity"] == y["publisher_identity"];
      assert x["policy_profile"] == y["policy_profile"];
    }
  }

  lemma IntegerOrNullIsInjective(a: Option<int>, b: Option<int>)
    requires IntegerOrNull(a) == IntegerOrNull(b)
    ensures a == b
  {
    if a.Some? && b.Some? {
      DecimalIsInjective(a.value, b.value);
    }
  }

  lemma MetadataObjectIsInjective(a: Metadata, b: Metadata)
    requires MetadataObject(a) == MetadataObject(b)
    ensures a == b
  {
    hide TextArray, IntegerOrNull;
    var x, y := MetadataObject(a), MetadataObject(b);
    assert x["name"] == y["name"] && x["description"] == y["description"] && x["tags"] == y["tags"];
    assert x["token_estimate"] == y["token_estimate"] && x["maturity_score"] == y["maturity_score"];
    assert x["security_score"] == y["security_score"] && x["overall_score"] == y["overall_score"];
    TextArrayIsInjective(a.tags, b.tags);
    IntegerOrNullIsInjective(a.tokenEstimate, b.tokenEstimate);
    assert "assessment" in x <==> a.assessment.Some?;
    assert "assessment" in y <==> b.assessment.Some?;
    if a.assessment.Some? {
      assert x["assessment"] == y["assessment"];
    }
  }

  lemma TrustTierNameIsInjective(a: Governance.TrustTier, b: Governance.TrustTier)
    requires TrustTierName(a) == TrustTierName(b)
    ensures a == b
  {
    assert TrustTierName(a)[0] == TrustTierName(b)[0];
  }

  /** The authored facts of a record. */
  ghost predicate SameAuthored(a: PublishRecord, b: PublishRecord) {
    && a.slug == b.slug && a.version == b.version && a.contentDigest == b.contentDigest
    && a.metadata == b.metadata && a.trustTier == b.trustTier && a.provenance == b.provenance
    && SameByType(a.relationships, b.relationships)
  }

  lemma PayloadIsInjective(a: PublishRecord, b: PublishRecord)
    requires Payload(a) == Payload(b)
    ensures a.slug == b.slug && a.version == b.version && a.contentDigest == b.contentDigest
    ensures a.metadata == b.metadata && a.trustTier == b.trustTier && a.provenance == b.provenance
    ensures Group(a.relationships) == Group(b.relationships)
  {
    var x, y := Payload(a).fields, Payload(b).fields;
    assert x["slug"] == y["slug"] && x["version"] == y["version"];
    assert x["content_checksum_digest"] == y["content_checksum_digest"];
    assert x["metadata"] == y["metadata"];
    MetadataObjectIsInjective(a.metadata, b.metadata);
    assert x["governance"] == y["governance"];
    var g, h := x["governance"].fields, y["governance"].fields;
    assert g["trust_tier"] == h["trust_tier"] && g["provenance"] == h["provenance"];
    TrustTierNameIsInjective(a.trustTier, b.trustTier);
    ProvenanceObjectIsInjective(a.provenance, b.provenance);
    assert x["relationships"] == y["relationships"];
    RelationshipsObjectIsInjective(Group(a.relationships), Group(b.relationships));
  }

  /** Two publish records have the same version checksum exactly when their authored facts agree:
      slug, version, content digest, metadata (an absent assessment differs from an empty one),
      trust tier, provenance, and the four selector lists whatever their interleaving. Namespace,
      review state, promotion channel, policy pack and row ordinals do not enter. */
  lemma ChecksumIdentifiesAuthoredFacts(a: PublishRecord, b: PublishRecord)
    ensures VersionChecksumDigest(a) == VersionChecksumDigest(b) <==> SameAuthored(a, b)
  {
    CanonicalTextIsInjective(Payload(a), Payload(b));
    GroupingForgetsInterleaving(a.relationships, b.relationships);
    if Payload(a) == Payload(b) {
      PayloadIsInjective(a, b);
    }
  }

  /** For records built by publishing, the checksum pins the four authored lists themselves. */
  lemma ChecksumPinsRelationships(a: PublishRecord, b: PublishRecord, ra: Relationships, rb: Relationships)
    requires a.relationships == Flatten(ra) && b.relationships == Flatten(rb)
    requires VersionChecksumDigest(a) == VersionChecksumDigest(b)
    ensures ra == rb
  {
    ChecksumIdentifiesAuthoredFacts(a, b);
    GroupingForgetsInterleaving(a.relationships, b.relationships);
    GroupAfterFlatten(ra);
    GroupAfterFlatten(rb);
  }
}
