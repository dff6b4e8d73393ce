/** The hashed text itself: how values are spelled, and which fact stands under which name. */
module ChecksumText {
  import opened CanonicalJson
  import opened Collections
  import opened Hashing
  import opened Orders
  import opened SearchOrder
  import opened SearchRanking
  import opened Selectors
  import opened VersionChecksum

  // --- Spelling -----------------------------------------------------------------------------------

  /** How one character of a string literal is spelled: quote, backslash and the five named controls with a
      backslash and a letter, the other controls with a code of four lower-case hexadecimal digits, and
      everything else as it is. */
  function Spelled(c: char): string {
    if c == '"' then "\\\""
    else if c == '\\' then "\\\\"
    else if c == '\n' then "\\n"
    else if c == '\r' then "\\r"
    else if c == '\t' then "\\t"
    else if c as int == 12 then "\\f"
    else if c as int == 8 then "\\b"
    else if c as int < 32
      then ['\\', 'u', '0', '0', if c as int < 16 then '0' else '1', "0123456789abcdef"[c as int % 16]]
    else [c]
  }

  function SpelledAll(s: string): string {
    if s == [] then [] else Spelled(s[0]) + SpelledAll(s[1..])
  }

  lemma HexDigitIs(n: nat)
    requires n < 16
    ensures HexDigit(n) == "0123456789abcdef"[n]
  {
  }

  lemma NamedCharIsSpelled(c: char, rest: string)
    requires ShortEscape(c) != 0 as char
    ensures CharTo(c, rest) == Spelled(c) + rest
  {
    assert Spelled(c) == ['\\', ShortEscape(c)];
  }

  lemma SixCharacters(high: char, low: char, rest: string)
    ensures ['\\'] + (['u'] + (['0'] + (['0'] + ([high] + ([low] + rest))))) == ['\\', 'u', '0', '0', high, low] + rest
  {
  }

  lemma ControlIsSpelled(c: char, rest: string)
    requires ShortEscape(c) == 0 as char && c as int < 32
    ensures CharTo(c, rest) == Spelled(c) + rest
  {
    HexDigitIs(c as int % 16);
    HexDigitIs(c as int / 16);
    SixCharacters(HexDigit(c as int / 16), HexDigit(c as int % 16), rest);
  }

  lemma CharIsSpelled(c: char, rest: string)
    ensures CharTo(c, rest) == Spelled(c) + rest
  {
    if ShortEscape(c) != 0 as char {
      NamedCharIsSpelled(c, rest);
    } else if c as int < 32 {
      ControlIsSpelled(c, rest);
    }
  }

  lemma {:induction false} CharsAreSpelled(s: string, rest: string)
    ensures CharsTo(s, rest) == SpelledAll(s) + ("\"" + rest)
  {
    if s != [] {
      CharsAreSpelled(s[1..], rest);
      CharIsSpelled(s[0], CharsTo(s[1..], rest));
      assert Spelled(s[0])
        + (SpelledAll(s[1..]) + ("\"" + rest)) == (Spelled(s[0]) + SpelledAll(s[1..])) + ("\"" + rest);
    }
  }

  function Quoted(s: string): string {
    "\"" + SpelledAll(s) + "\""
  }

  lemma QuoteIsQuoted(s: string, rest: string)
    ensures QuoteTo(s, rest) == Quoted(s) + rest
  {
    CharsAreSpelled(s, rest);
    assert "\"" + (SpelledAll(s) + ("\"" + rest)) == ("\"" + SpelledAll(s) + "\"") + rest;
  }

  function Joined(texts: seq<string>): string {
    if texts == [] then ""
    else if |texts| == 1 then texts[0]
    else texts[0] + ("," + Joined(texts[1..]))
  }

  /** Keys in ascending order of their text. */
  ghost predicate Ascending(keys: seq<string>) {
    forall i, j | 0 <= i < j < |keys| :: Precedent(keys[i], keys[j])
  }

  lemma SortedKeysAscend(keys: set<string>)
    ensures Ascending(SortedKeys(keys))
  {
    TextBeforeIsOrder(keys);
    var sorted := SortedKeys(keys);
    forall i, j | 0 <= i < j < |sorted| ensures Precedent(sorted[i], sorted[j]) {
      TextBeforeIff(sorted[i], sorted[j]);
    }
  }

  /** The texts of the members of an object, in the order of the keys. */
  ghost predicate AreMembers(texts: seq<string>, fields: map<string, Json>, keys: seq<string>) {
    && |texts| == |keys|
    && forall i | 0 <= i < |keys| :: keys[i] in fields && texts[i] == Quoted(keys[i]) + (":" + Print(fields[keys[i]]))
  }

  ghost predicate AreTexts(texts: seq<string>, items: seq<Json>) {
    |texts| == |items| && forall i | 0 <= i < |items| :: texts[i] == Print(items[i])
  }

  function TextsOf(items: seq<Json>): (texts: seq<string>)
    ensures AreTexts(texts, items)
  {
    seq(|items|, i requires 0 <= i < |items| => Print(items[i]))
  }

  function MemberTexts(fields: map<string, Json>, keys: seq<string>): (texts: seq<string>)
    requires forall k | k in keys :: k in fields
    ensures AreMembers(texts, fields, keys)
  {
    seq(|keys|, i requires 0 <= i < |keys| => Quoted(keys[i]) + (":" + Print(fields[keys[i]])))
  }

  lemma JoinedIs(texts: seq<string>)
    requires texts != []
    ensures Joined(texts) == texts[0] + if |texts| == 1 then "" else "," + Joined(texts[1..])
  {
  }

  /** What follows the first of several texts. */
  function Tail(texts: seq<string>): string {
    if texts == [] then "" else "," + Joined(texts)
  }

  lemma FirstAndTail(texts: seq<string>, first: string, others: seq<string>)
    requires texts == [first] + others
    ensures Joined(texts) == first + Tail(others)
  {
    JoinedIs(texts);
    assert texts[1..] == others;
  }

  lemma Regrouped(a: string, b: string, c: string)
    ensures a + (b + c) == (a + b) + c
  {
  }

  lemma PrintedArray(items: seq<Json>, rest: string)
    ensures PrintTo(Array(items), rest)
      == "[" + if items == [] then "]" + rest else PrintTo(items[0], ItemsTo(items[1..], rest))
  {
  }

  lemma PrintedItems(items: seq<Json>, rest: string)
    ensures ItemsTo(items, rest) == if items == []
      then "]" + rest else "," + PrintTo(items[0], ItemsTo(items[1..], rest))
  {
  }

  lemma PrintedMembers(j: Json, keys: seq<string>, rest: string)
    requires j.Object? && forall k | k in keys :: k in j.fields
    ensures MembersTo(j, keys, rest)
      == if keys == [] then "}" + rest else "," + MemberTo(j, keys[0], MembersTo(j, keys[1..], rest))
  {
  }

  lemma PrintedFields(j: Json, rest: string)
    requires j.Object?
    ensures var keys := SortedKeys(j.fields.Keys);
      PrintTo(j, rest) == "{" + if keys == [] then "}" + rest else MemberTo(j, keys[0], MembersTo(j, keys[1..], rest))
  {
  }

  lemma NothingJoined(texts: seq<string>)
    requires texts == []
    ensures forall rest: string :: Joined(texts) + rest == rest
  {
  }

  lemma TextsOfMore(items: seq<Json>)
    requires items != []
    ensures TextsOf(items) == [Print(items[0])] + TextsOf(items[1..])
  {
  }

  /** The items of an array, whatever follows the array. */
  lemma {:induction false} ArraySplits(items: seq<Json>, rest: string)
    ensures PrintTo(Array(items), rest) == "[" + (Joined(TextsOf(items)) + ("]" + rest))
    decreases items, 1, |items| + 1
  {
    hide PrintTo, ItemsTo, Joined, Print, TextsOf;
    PrintedArray(items, rest);
    if items == [] {
      NothingJoined(TextsOf(items));
    } else {
      var after := ItemsTo(items[1..], rest);
      ItemsSplit(items[1..], rest);
      PrintSplits(items[0], after);
      TextsOfMore(items);
      FirstAndTail(TextsOf(items), Print(items[0]), TextsOf(items[1..]));
      Regrouped(Print(items[0]), Tail(TextsOf(items[1..])), "]" + rest);
    }
  }

  lemma {:induction false} ItemsSplit(items: seq<Json>, rest: string)
    ensures ItemsTo(items, rest) == Tail(TextsOf(items)) + ("]" + rest)
    decreases items, 1, |items|
  {
    hide PrintTo, ItemsTo, Joined, Print;
    PrintedItems(items, rest);
    if items == [] {
      NothingJoined(TextsOf(items));
    } else {
      var after := ItemsTo(items[1..], rest);
      ItemsSplit(items[1..], rest);
      PrintSplits(items[0], after);
      TextsOfMore(items);
      FirstAndTail(TextsOf(items), Print(items[0]), TextsOf(items[1..]));
      hide TextsOf;
      Regrouped(Print(items[0]), Tail(TextsOf(items[1..])), "]" + rest);
      Regrouped(",", Joined(TextsOf(items)), "]" + rest);
    }
  }

  lemma MembersOfMore(fields: map<string, Json>, keys: seq<string>)
    requires keys != [] && forall k | k in keys :: k in fields
    ensures MemberTexts(fields, keys)
      == [Quoted(keys[0]) + (":" + Print(fields[keys[0]]))] + MemberTexts(fields, keys[1..])
  {
  }

  lemma NoMembers(fields: map<string, Json>, keys: seq<string>)
    requires keys == []
    ensures MemberTexts(fields, keys) == []
  {
  }

  lemma {:induction false} ObjectSplits(j: Json, rest: string)
    requires j.Object?
    ensures PrintTo(j, rest) == "{" + (Joined(MemberTexts(j.fields, SortedKeys(j.fields.Keys))) + ("}" + rest))
    decreases j, 1, |j.fields| + 1
  {
    hide PrintTo, MemberTo, MembersTo, Joined, Print, MemberTexts, Quoted, SortedKeys;
    var keys := SortedKeys(j.fields.Keys);
    PrintedFields(j, rest);
    if keys == [] {
      NoMembers(j.fields, keys);
      NothingJoined(MemberTexts(j.fields, keys));
    } else {
      var after, member := MembersTo(j, keys[1..], rest), Quoted(keys[0]) + (":" + Print(j.fields[keys[0]]));
      MembersSplit(j, keys[1..], rest);
      MemberSplits(j, keys[0], after);
      MembersOfMore(j.fields, keys);
      FirstAndTail(MemberTexts(j.fields, keys), member, MemberTexts(j.fields, keys[1..]));
      Regrouped(member, Tail(MemberTexts(j.fields, keys[1..])), "}" + rest);
    }
  }

  lemma {:induction false} MemberSplits(j: Json, key: string, rest: string)
    requires j.Object? && key in j.fields
    ensures MemberTo(j, key, rest) == (Quoted(key) + (":" + Print(j.fields[key]))) + rest
    decreases j, 0, 0
  {
    QuoteIsQuoted(key, [':'] + PrintTo(j.fields[key], rest));
    PrintSplits(j.fields[key], rest);
  }

  lemma {:induction false} MembersSplit(j: Json, keys: seq<string>, rest: string)
    requires j.Object? && forall k | k in keys :: k in j.fields
    ensures MembersTo(j, keys, rest) == Tail(MemberTexts(j.fields, keys)) + ("}" + rest)
    decreases j, 1, |keys|
  {
    hide PrintTo, MemberTo, MembersTo, Joined, Print, Quoted;
    PrintedMembers(j, keys, rest);
    if keys == [] {
      NoMembers(j.fields, keys);
      NothingJoined(MemberTexts(j.fields, keys));
    } else {
      var after, member := MembersTo(j, keys[1..], rest), Quoted(keys[0]) + (":" + Print(j.fields[keys[0]]));
      MembersSplit(j, keys[1..], rest);
      MemberSplits(j, keys[0], after);
      MembersOfMore(j.fields, keys);
      FirstAndTail(MemberTexts(j.fields, keys), member, MemberTexts(j.fields, keys[1..]));
      hide MemberTexts;
      Regrouped(member, Tail(MemberTexts(j.fields, keys[1..])), "}" + rest);
      Regrouped(",", Joined(MemberTexts(j.fields, keys)), "}" + rest);
    }
  }

  lemma Closed(open: string, inside: string, close: string, rest: string)
    ensures open + (inside + (close + rest)) == (open + (inside + (close + []))) + rest
  {
  }

  /** The text of a value does not depend on what follows it. */
  lemma {:induction false} PrintSplits(j: Json, rest: string)
    ensures PrintTo(j, rest) == Print(j) + rest
    decreases j, 2, 0
  {
    match j
    case String(s) =>
      QuoteIsQuoted(s, rest);
      QuoteIsQuoted(s, []);
    case Array(items) =>
      ArraySplits(items, rest);
      ArraySplits(items, []);
      Closed("[", Joined(TextsOf(items)), "]", rest);
    case Object(fields) =>
      ObjectSplits(j, rest);
      ObjectSplits(j, []);
      Closed("{", Joined(MemberTexts(fields, SortedKeys(fields.Keys))), "}", rest);
    case _ =>
  }

  /** How a value is spelled: no white space; the items of an array and the members of an object separated by
      commas; members in ascending order of their keys. */
  lemma SpelledOut(j: Json)
    ensures j.Null? ==> Print(j) == "null"
    ensures j.Boolean? ==> Print(j) == if j.b then "true" else "false"
    ensures j.Number? ==> Print(j) == j.lexeme
    ensures j.String? ==> Print(j) == Quoted(j.s)
    ensures j.Array? ==> exists texts :: AreTexts(texts, j.items) && Print(j) == "[" + (Joined(texts) + "]")
    ensures j.Object? ==> exists keys, texts ::
      && Ascending(keys) && (forall k :: k in keys <==> k in j.fields) && AreMembers(texts, j.fields, keys)
      && Print(j) == "{" + (Joined(texts) + "}")
  {
    match j
    case String(s) =>
      QuoteIsQuoted(s, []);
    case Array(items) =>
      ArraySplits(items, []);
      assert "]" + [] == "]";
    case Object(fields) =>
      SortedKeysAscend(fields.Keys);
      ObjectSplits(j, []);
      assert "}" + [] == "}";
    case _ =>
  }

  // --- Names ----------------------------------------------------------------------------------------

  predicate IsText(j: Json, o: Option<string>) {
    j == if o.Some? then String(o.value) else Null
  }

  predicate IsScore(j: Json, o: Option<Lexeme>) {
    j == if o.Some? then Number(o.value) else Null
  }

  predicate AreStrings(j: Json, texts: seq<string>) {
    j.Array? && |j.items| == |texts| && forall i | 0 <= i < |texts| :: j.items[i] == String(texts[i])
  }

  predicate IsSelector(j: Json, s: Selector) {
    && j.Object? && j.fields.Keys == {"slug", "version", "version_constraint", "optional", "markers"}
    && j.fields["slug"] == String(s.slug) && IsText(j.fields["version"], s.version)
    && IsText(j.fields["version_constraint"], s.versionConstraint)
    && j.fields["optional"] == (if s.optional.Some? then Boolean(s.optional.value) else Null)
    && AreStrings(j.fields["markers"], s.markers)
  }

  predicate AreSelectors(j: Json, selectors: seq<Selector>) {
    j.Array? && |j.items| == |selectors| && forall i | 0 <= i < |selectors| :: IsSelector(j.items[i], selectors[i])
  }

  predicate IsMetadata(j: Json, m: Metadata) {
    && j.Object?
    && j.fields.Keys
       == {"name", "description", "tags", "token_estimate", "maturity_score", "security_score", "overall_score"}
         + (if m.assessment.Some? then {"assessment"} else {})
    && j.fields["name"] == String(m.name) && IsText(j.fields["description"], m.description)
    && AreStrings(j.fields["tags"], m.tags)
    && j.fields["token_estimate"] == (if m.tokenEstimate.Some? then Number(Decimal(m.tokenEstimate.value)) else Null)
    && IsScore(j.fields["maturity_score"], m.maturityScore) && IsScore(j.fields["security_score"], m.securityScore)
    && IsScore(j.fields["overall_score"], m.overallScore)
    && (m.assessment.Some? ==> j.fields["assessment"] == Object(m.assessment.value))
  }

  predicate IsProvenance(j: Json, o: Option<Provenance>) {
    match o
    case None => j == Null
    case Some(p) =>
      && j.Object? && j.fields.Keys == {"repo_url", "commit_sha", "tree_path", "publisher_identity", "policy_profile"}
      && j.fields["repo_url"] == String(p.repoUrl) && j.fields["commit_sha"] == String(p.commitSha)
      && IsText(j.fields["tree_path"], p.treePath) && IsText(j.fields["publisher_identity"], p.publisherIdentity)
      && IsText(j.fields["policy_profile"], p.policyProfile)
  }

  predicate IsGovernance(j: Json, r: PublishRecord) {
    && j.Object? && j.fields.Keys == {"trust_tier", "provenance"}
    && j.fields["trust_tier"]
       == String(match r.trustTier
         case Untrusted => "untrusted" case Internal => "internal" case Verified => "verified")
    && IsProvenance(j.fields["provenance"], r.provenance)
  }

  predicate AreRelationships(j: Json, rows: seq<SelectorRow>) {
    && j.Object? && j.fields.Keys == {"depends_on", "extends", "conflicts_with", "overlaps_with"}
    && AreSelectors(j.fields["depends_on"], OfType(rows, DependsOn))
       && AreSelectors(j.fields["extends"], OfType(rows, Extending))
    && AreSelectors(j.fields["conflicts_with"], OfType(rows, ConflictsWith))
    && AreSelectors(j.fields["overlaps_with"], OfType(rows, OverlapsWith))
  }

  lemma MetadataIsNamed(m: Metadata)
    ensures IsMetadata(Object(MetadataObject(m)), m)
  {
    if m.assessment.Some? {
      assert MetadataObject(m)["assessment"] == Object(m.assessment.value);
      assert "name"[0] != 'a' && "description"[0] != 'a' && "tags"[0] != 'a' && "token_estimate"[0] != 'a';
      assert "maturity_score"[0] != 'a' && "security_score"[0] != 'a' && "overall_score"[0] != 'a'
        && "assessment"[0] == 'a';
    }
  }

  lemma SelectorIsNamed(s: Selector)
    ensures IsSelector(SelectorObject(s), s)
  {
  }

  lemma SelectorsAreNamed(selectors: seq<Selector>)
    ensures AreSelectors(SelectorArray(selectors), selectors)
  {
    forall i | 0 <= i < |selectors| ensures IsSelector(SelectorArray(selectors).items[i], selectors[i]) {
      SelectorIsNamed(selectors[i]);
    }
  }

  lemma RelationshipsAreNamed(rows: seq<SelectorRow>)
    ensures AreRelationships(RelationshipsObject(Group(rows)), rows)
  {
    hide AreSelectors, SelectorArray, Group, OfType;
    var r := Group(rows);
    SelectorsAreNamed(r.dependsOn);
    SelectorsAreNamed(r.extending);
    SelectorsAreNamed(r.conflictsWith);
    SelectorsAreNamed(r.overlapsWith);
    GroupIsByType(rows, DependsOn);
    GroupIsByType(rows, Extending);
    GroupIsByType(rows, ConflictsWith);
    GroupIsByType(rows, OverlapsWith);
  }

  lemma ProvenanceIsNamed(o: Option<Provenance>)
    ensures IsProvenance(ProvenanceObject(o), o)
  {
  }

  /** Reading the hashed text back gives one object, with every authored fact under its name and nothing
      else. */
  lemma HashedTextNames(r: PublishRecord)
    ensures var read := Parse(VersionChecksumDigest(r).text);
      && read.Some? && read.value.Object?
      && var fields := read.value.fields;
         && fields.Keys == {"slug", "version", "content_checksum_digest", "metadata", "governance", "relationships"}
         && fields["slug"] == String(r.slug) && fields["version"] == String(r.version)
         && fields["content_checksum_digest"] == String(r.contentDigest.text)
         && IsMetadata(fields["metadata"], r.metadata) && IsGovernance(fields["governance"], r)
         && AreRelationships(fields["relationships"], r.relationships)
  {
    hide Parse, Print, IsMetadata, AreRelationships, IsProvenance, MetadataObject, RelationshipsObject,
      ProvenanceObject, Group;
    ParseInvertsPrint(Payload(r));
    MetadataIsNamed(r.metadata);
    RelationshipsAreNamed(r.relationships);
    ProvenanceIsNamed(r.provenance);
  }
}
