/** The search service: SQL page, fusion mode, and the visibility check that runs last. */
module SearchService {
  import opened Collections
  import opened Fusion
  import opened FusionLaws
  import opened GroupRanking
  import opened Governance
  import opened SearchRanking

  datatype Mode = Off | Shadow | Hybrid

  /** How the service is configured, and what the two repository look-ups answered. */
  datatype Signals = Signals(
    mode: Mode,
    semanticRows: seq<Candidate>,
    coUsageEnabled: bool,
    contextSkills: seq<string>,
    repositoryBoosts: Boosts,
    boostCap: real)

  function SemanticUsed(s: Signals): seq<Candidate> {
    if s.mode == Hybrid then s.semanticRows else []
  }

  function BoostsUsed(s: Signals): Boosts {
    if s.coUsageEnabled && s.contextSkills != [] then s.repositoryBoosts else map[]
  }

  function CombineCandidates(lexical: seq<Candidate>, s: Signals, limit: nat): seq<Candidate> {
    Fuse(lexical, SemanticUsed(s), BoostsUsed(s), limit, s.boostCap)
  }

  /** Which signals count: semantic rows exactly in hybrid mode, boosts exactly when they are enabled and the
      caller names context skills. */
  lemma SignalsThatCount(lexical: seq<Candidate>, s: Signals, limit: nat)
    ensures s.mode == Hybrid && s.coUsageEnabled && s.contextSkills != [] ==>
      CombineCandidates(lexical, s, limit) == Fuse(lexical, s.semanticRows, s.repositoryBoosts, limit, s.boostCap)
    ensures s.mode != Hybrid ==>
      CombineCandidates(lexical, s, limit) == CombineCandidates(lexical, s.(mode := Hybrid, semanticRows := []), limit)
    ensures !s.coUsageEnabled || s.contextSkills == [] ==>
      CombineCandidates(lexical, s, limit)
      == CombineCandidates(lexical, s.(coUsageEnabled := true, contextSkills := ["any"], repositoryBoosts := map[]),
        limit)
  {
  }

  predicate CandidateVisible(profile: Profile, caller: Caller, c: Candidate) {
    VisibleInList(profile, caller, c.attributes)
  }

  function Search(docs: seq<Document>, r: Request, s: Signals, profile: Profile, caller: Caller): seq<Candidate> {
    Keep(CombineCandidates(SearchCandidates(docs, r), s, r.limit), (c: Candidate) =>
      CandidateVisible(profile, caller, c))
  }

  lemma {:induction false} KeepMembers<T>(s: seq<T>, p: T -> bool)
    ensures forall x :: x in Keep(s, p) <==> x in s && p(x)
  {
    if s != [] {
      KeepMembers(s[1..], p);
      assert s == [s[0]] + s[1..];
    }
  }

  lemma PageIsLexicalPage(docs: seq<Document>, r: Request)
    requires KeyedDocuments(docs)
    ensures LexicalPage(SearchCandidates(docs, r))
  {
    PageIsBestOfEachSlug(docs, r);
    var page, key := SearchCandidates(docs, r), (c: Candidate) => c.slug;
    forall i, j | 0 <= i < j < |page| ensures page[i].slug != page[j].slug {
      assert key(page[i]) != key(page[j]);
    }
  }

  /** In off and in shadow mode, without co-usage boosts, combining changes nothing: semantic
      retrieval in shadow mode cannot influence what a caller sees. */
  lemma OffAndShadowReturnTheLexicalPage(docs: seq<Document>, r: Request, s: Signals)
    requires KeyedDocuments(docs) && s.mode != Hybrid && s.boostCap >= 0.0
    requires !s.coUsageEnabled || s.contextSkills == []
    ensures CombineCandidates(SearchCandidates(docs, r), s, r.limit) == SearchCandidates(docs, r)
  {
    PageIsLexicalPage(docs, r);
    PageIsBestOfEachSlug(docs, r);
    FusionOfLexicalAlone(SearchCandidates(docs, r), map[], r.limit, s.boostCap);
  }

  ghost predicate Shows(results: seq<Candidate>, slug: string) {
    exists c | c in results :: c.slug == slug
  }

  /** In any mode, with any boosts: a slug is shown exactly when one of the two lists mentions it,
      fewer fused entries than the limit come before its own, and the row of its entry is visible. */
  lemma SlugIsShownInAnyModeIff(docs: seq<Document>, r: Request, s: Signals, profile: Profile, caller: Caller,
      slug: string)
    ensures var lexical, semantic, boosts := SearchCandidates(docs, r), SemanticUsed(s), BoostsUsed(s);
      Shows(Search(docs, r, s, profile, caller), slug) <==>
        && (Mentions(lexical, slug) || Mentions(semantic, slug))
        && |EntriesAhead(lexical, semantic, boosts, s.boostCap, slug)| < r.limit
        && CandidateVisible(profile, caller, Entry(lexical, semantic, boosts, s.boostCap, slug).candidate)
  {
    hide SearchCandidates, Fuse, EntriesAhead, Mentions, CandidateVisible, SemanticUsed, BoostsUsed;
    var lexical, semantic, boosts := SearchCandidates(docs, r), SemanticUsed(s), BoostsUsed(s);
    KeepMembers(CombineCandidates(lexical, s, r.limit), (c: Candidate) => CandidateVisible(profile, caller, c));
    forall c: Candidate
      ensures c in Search(docs, r, s, profile, caller)
        <==> c in Fuse(lexical, semantic, boosts, r.limit, s.boostCap) && CandidateVisible(profile, caller, c)
    {
    }
    forall c: Candidate {
      EntryIsOnTheFusedPageIff(lexical, semantic, boosts, r.limit, s.boostCap, c);
    }
    if Mentions(lexical, slug) || Mentions(semantic, slug) {
      assert SlugOf(Entry(lexical, semantic, boosts, s.boostCap, slug)) == slug;
    }
  }

  /** Without semantic rows and boosts: because the choice of one row per slug and the limit come
      before the visibility check, a slug is shown exactly when its best selected row is visible
      and fewer slugs than the limit have a best row, visible or not, before it. */
  lemma SlugIsShownIff(docs: seq<Document>, r: Request, s: Signals, profile: Profile, caller: Caller, best: Candidate)
    requires KeyedDocuments(docs) && s.mode != Hybrid && s.boostCap >= 0.0
    requires !s.coUsageEnabled || s.contextSkills == []
    requires BestRow(docs, r, best)
    ensures Shows(Search(docs, r, s, profile, caller), best.slug)
      <==> |SlugsAhead(docs, r, best)| < r.limit && CandidateVisible(profile, caller, best)
    ensures |SearchCandidates(docs, r)| < r.limit ==> |SlugsAhead(docs, r, best)| < r.limit
  {
    BestRowIsOnThePageIff(docs, r, best);
    assert best in Filtered(docs, r);
    hide Fuse, CandidateVisible, SlugsAhead;
    OffAndShadowReturnTheLexicalPage(docs, r, s);
    PageIsBestOfEachSlug(docs, r);
    var page := SearchCandidates(docs, r);
    KeepMembers(page, (c: Candidate) => CandidateVisible(profile, caller, c));
    forall c | c in page && c.slug == best.slug ensures c == best {
      BestRowIsUnique(docs, r, c, best);
    }
  }

  lemma ShownRowIsBest(docs: seq<Document>, r: Request, s: Signals, profile: Profile, caller: Caller, c: Candidate)
    requires KeyedDocuments(docs) && s.mode != Hybrid && s.boostCap >= 0.0
    requires !s.coUsageEnabled || s.contextSkills == []
    requires c in Search(docs, r, s, profile, caller)
    ensures BestRow(docs, r, c) && CandidateVisible(profile, caller, c)
  {
    OffAndShadowReturnTheLexicalPage(docs, r, s);
    PageIsBestOfEachSlug(docs, r);
    KeepMembers(SearchCandidates(docs, r), (x: Candidate) => CandidateVisible(profile, caller, x));
  }

  /** Nothing invisible is ever returned, in any mode. */
  lemma EveryResultIsVisible(docs: seq<Document>, r: Request, s: Signals, profile: Profile, caller: Caller)
    ensures forall c | c in Search(docs, r, s, profile, caller) :: CandidateVisible(profile, caller, c)
  {
    KeepMembers(CombineCandidates(SearchCandidates(docs, r), s, r.limit), (c: Candidate) =>
      CandidateVisible(profile, caller, c));
  }

  const READER: Caller := Caller("t", {Read}, [])

  /** A public, approved document; a restricted policy pack may keep it from everybody. */
  function Doc(versionFk: int, slug: string, pack: Option<PolicyPack>): Document {
    var version := if versionFk == 1 then "1.0.0" else "2.0.0";
    Document(versionFk, slug, slug, version, slug, {},
      Attributes(Published, DEFAULT_NAMESPACE, Approved, Prod, Untrusted, pack),
             versionFk, 0, 0, false, 0.0)
  }

  function BrowseRequest(limit: nat): Request {
    Request(None, None, {}, None, None, {Published}, {Untrusted}, PushedDown(READER), limit)
  }

  const SEALED: PolicyPack := PolicyPack("sealed", true, false, {}, {})

  lemma BothAreSelected(docs: seq<Document>, r: Request, other: string, limit: nat)
    requires docs == [Doc(1, "tool", None), Doc(2, other, Some(SEALED))] && r == BrowseRequest(limit)
    ensures KeyedDocuments(docs) && Filtered(docs, r) == [Project(docs[0], r), Project(docs[1], r)]
    ensures Project(docs[0], r).slug == "tool" && Project(docs[1], r).slug == other
      && Before(Project(docs[1], r), Project(docs[0], r))
    ensures !Before(Project(docs[0], r), Project(docs[1], r)) && !Before(Project(docs[1], r), Project(docs[1], r))
    ensures CandidateVisible(DEFAULT_PROFILE, READER, Project(docs[0], r))
      && !CandidateVisible(DEFAULT_PROFILE, READER, Project(docs[1], r))
  {
    assert docs[1..] == [docs[1]] && docs[1..][1..] == [];
    assert Passes(PushedDown(READER), docs[0].attributes) && Passes(PushedDown(READER), docs[1].attributes);
    assert Selected(docs[0], r) && Selected(docs[1], r);
    var a, b := Project(docs[0], r), Project(docs[1], r);
    assert Filtered([docs[1]], r) == [b];
    assert Filtered(docs, r) == [a] + [b];
    assert a.tagOverlapCount == b.tagOverlapCount;
    assert !PackAllows(READER, b.attributes);
  }

  /** A visible matching row is lost when the newest version of its slug is not visible, whatever
      the limit, and when rows of other slugs that are not visible fill the page. */
  lemma AVisibleRowCanBeLost(other: string, limit: nat, s: Signals)
    requires s.mode != Hybrid && s.boostCap >= 0.0 && (!s.coUsageEnabled || s.contextSkills == [])
    requires other == "tool" || limit <= 1
    ensures var docs, r := [Doc(1, "tool", None), Doc(2, other, Some(SEALED))], BrowseRequest(limit);
      && KeyedDocuments(docs) && Project(docs[0], r) in Filtered(docs, r)
         && CandidateVisible(DEFAULT_PROFILE, READER, Project(docs[0], r))
      && Search(docs, r, s, DEFAULT_PROFILE, READER) == []
  {
    var docs, r := [Doc(1, "tool", None), Doc(2, other, Some(SEALED))], BrowseRequest(limit);
    var shown, hidden := Project(docs[0], r), Project(docs[1], r);
    BothAreSelected(docs, r, other, limit);
    hide Search, Project, Doc, BrowseRequest, Filtered, CandidateVisible;
    if BestRow(docs, r, shown) {
      assert other != "tool";
      assert hidden.slug in SlugsAhead(docs, r, shown);
      SubsetSize({hidden.slug}, SlugsAhead(docs, r, shown));
      SlugIsShownIff(docs, r, s, DEFAULT_PROFILE, READER, shown);
    }
    var results := Search(docs, r, s, DEFAULT_PROFILE, READER);
    if results != [] {
      ShownRowIsBest(docs, r, s, DEFAULT_PROFILE, READER, results[0]);
    }
  }
}
