/** What the filters that the service pushes into SQL do to the rows and to the page. */
module PushedFilters {
  import opened Collections
  import opened Fusion
  import opened FusionLaws
  import opened Governance
  import opened GroupRanking
  import opened SearchRanking
  import opened SearchService

  // --- Rows -----------------------------------------------------------------------------------------

  const NO_FILTERS: Filters := Filters(None, None, ALL_REVIEW_STATES)

  lemma NoFiltersPass(a: Attributes)
    ensures Passes(NO_FILTERS, a)
  {
    assert a.reviewState == PendingReview || a.reviewState == Approved || a.reviewState == Rejected;
  }

  lemma KeepFirst<T>(x: T, rest: seq<T>, p: T -> bool)
    ensures Keep([x] + rest, p) == (if p(x) then [x] else []) + Keep(rest, p)
    ensures Keep([] + rest, p) == Keep(rest, p)
  {
    assert ([x] + rest)[1..] == rest;
    assert [] + rest == rest;
  }

  /** The namespace, channel and review filters that the service pushes into SQL take away none of
      the rows the caller may see: of all matching rows the visible ones are the same, in the same
      order, as without those filters. */
  lemma {:induction false} PushDownLosesNoVisibleRow(docs: seq<Document>, r: Request, profile: Profile, caller: Caller)
    requires !UnbackedReviewer(caller) && r.filters == PushedDown(caller) && {} < r.lifecycles <= profile.exactRead
    ensures Keep(Filtered(docs, r), (c: Candidate) => CandidateVisible(profile, caller, c))
         == Keep(Filtered(docs, r.(filters := NO_FILTERS)), (c: Candidate) => CandidateVisible(profile, caller, c))
  {
    if docs != [] {
      PushDownLosesNoVisibleRow(docs[1..], r, profile, caller);
      var d, open := docs[0], r.(filters := NO_FILTERS);
      NoFiltersPass(d.attributes);
      PushDownIsSafeIff(profile, caller);
      hide PushedDown, UnbackedReviewer, VisibleInList, TextClause, Passes;
      assert Project(d, r) == Project(d, open);
      assert Selected(d, open) && CandidateVisible(profile, caller, Project(d, r)) ==> Selected(d, r) by {
        assert d.attributes.lifecycle in r.lifecycles && CandidateVisible(profile, caller, Project(d, r)) ==>
          Passes(r.filters, d.attributes);
      }
      var visible := (c: Candidate) => CandidateVisible(profile, caller, c);
      KeepFirst(Project(d, r), Filtered(docs[1..], r), visible);
      KeepFirst(Project(d, r), Filtered(docs[1..], open), visible);
    }
  }

  // --- The lexical page -----------------------------------------------------------------------------

  lemma PushedRowsAreRows(docs: seq<Document>, r: Request)
    requires KeyedDocuments(docs)
    ensures forall c | c in Filtered(docs, r) :: c in Filtered(docs, r.(filters := NO_FILTERS))
  {
    var open := r.(filters := NO_FILTERS);
    FilteredVersions(docs, r);
    FilteredVersions(docs, open);
    forall c | c in Filtered(docs, r) ensures c in Filtered(docs, open) {
      var d :| d in docs && Selected(d, r) && c == Project(d, r);
      NoFiltersPass(d.attributes);
      assert Selected(d, open) && c == Project(d, open);
    }
  }

  lemma VisibleRowIsPushed(docs: seq<Document>, r: Request, profile: Profile, caller: Caller, c: Candidate)
    requires KeyedDocuments(docs) && c in Filtered(docs, r.(filters := NO_FILTERS))
      && CandidateVisible(profile, caller, c)
    requires !UnbackedReviewer(caller) && r.filters == PushedDown(caller) && {} < r.lifecycles <= profile.exactRead
    ensures c in Filtered(docs, r)
  {
    var open := r.(filters := NO_FILTERS);
    FilteredVersions(docs, r);
    FilteredVersions(docs, open);
    PushDownIsSafeIff(profile, caller);
    hide PushedDown, UnbackedReviewer, VisibleInList, TextClause, Passes;
    var d :| d in docs && Selected(d, open) && c == Project(d, open);
    assert Passes(r.filters, d.attributes);
    assert Selected(d, r) && c == Project(d, r);
  }

  lemma FewerSlugsAhead(docs: seq<Document>, r: Request, open: Request, c: Candidate)
    requires KeyedDocuments(docs) && forall x | x in Filtered(docs, r) :: x in Filtered(docs, open)
    ensures SlugsAhead(docs, r, c) <= SlugsAhead(docs, open, c)
  {
    hide Before, Filtered;
    BeforeIsStrictOrder();
    FilteredVersions(docs, open);
    BeforeSeparates(Filtered(docs, open));
    forall slug | slug in SlugsAhead(docs, r, c) ensures slug in SlugsAhead(docs, open, c) {
      var b :| b in Filtered(docs, r) && BestRow(docs, r, b) && Before(b, c) && b.slug == slug;
      var best := BestOfGroup(Before, (x: Candidate) => x.slug, Filtered(docs, open), b);
      assert BestRow(docs, open, best) && Before(best, c);
    }
  }

  /** A visible row of the lexical page stays on it, whatever the limit cuts. */
  lemma VisibleRowStaysOnThePage(docs: seq<Document>, r: Request, profile: Profile, caller: Caller, c: Candidate)
    requires KeyedDocuments(docs) && c in SearchCandidates(docs, r.(filters := NO_FILTERS))
      && CandidateVisible(profile, caller, c)
    requires !UnbackedReviewer(caller) && r.filters == PushedDown(caller) && {} < r.lifecycles <= profile.exactRead
    ensures c in SearchCandidates(docs, r) && BestRow(docs, r, c)
  {
    hide SlugsAhead, CandidateVisible, UnbackedReviewer, PushedDown, Before, Filtered, SearchCandidates;
    var open := r.(filters := NO_FILTERS);
    PageIsBestOfEachSlug(docs, open);
    BestRowIsOnThePageIff(docs, open, c);
    PushedRowsAreRows(docs, r);
    VisibleRowIsPushed(docs, r, profile, caller, c);
    assert BestRow(docs, r, c);
    FewerSlugsAhead(docs, r, open, c);
    SubsetSize(SlugsAhead(docs, r, c), SlugsAhead(docs, open, c));
    BestRowIsOnThePageIff(docs, r, c);
  }

  /** Pushing the filters into SQL takes no slug off the page: without semantic rows and boosts every
      slug shown without them is also shown with them, whatever the limit cuts. */
  lemma PushDownKeepsShownSlugs(docs: seq<Document>, r: Request, s: Signals, profile: Profile, caller: Caller,
      slug: string)
    requires KeyedDocuments(docs) && s.mode != Hybrid && s.boostCap >= 0.0
    requires !s.coUsageEnabled || s.contextSkills == []
    requires !UnbackedReviewer(caller) && r.filters == PushedDown(caller) && {} < r.lifecycles <= profile.exactRead
    requires Shows(Search(docs, r.(filters := NO_FILTERS), s, profile, caller), slug)
    ensures Shows(Search(docs, r, s, profile, caller), slug)
  {
    hide Search, SlugsAhead, CandidateVisible, UnbackedReviewer, PushedDown, Before, Filtered, SearchCandidates;
    var open := r.(filters := NO_FILTERS);
    var c :| c in Search(docs, open, s, profile, caller) && c.slug == slug;
    ShownRowIsBest(docs, open, s, profile, caller, c);
    SlugIsShownIff(docs, open, s, profile, caller, c);
    BestRowIsOnThePageIff(docs, open, c);
    VisibleRowStaysOnThePage(docs, r, profile, caller, c);
    BestRowIsOnThePageIff(docs, r, c);
    SlugIsShownIff(docs, r, s, profile, caller, c);
  }

  // --- The fused page -------------------------------------------------------------------------------

  /** The semantic query: of the rows in order of distance, the first `cut` that pass the filters. */
  function SemanticPage(nearest: seq<Candidate>, f: Filters, cut: nat): seq<Candidate> {
    Take(Keep(nearest, (c: Candidate) => Passes(f, c.attributes)), cut)
  }

  /** The signals of one search, with the semantic rows that its filters leave. */
  function Seen(s: Signals, nearest: seq<Candidate>, f: Filters, cut: nat): Signals {
    s.(semanticRows := SemanticPage(nearest, f, cut))
  }

  // --- One slug of the fused page -------------------------------------------------------------------

  /** Row i is the first of its slug. */
  ghost predicate FirstOfSlug(list: seq<Candidate>, i: nat)
    requires i < |list|
  {
    forall j | 0 <= j < i :: list[j].slug != list[i].slug
  }

  lemma {:induction false} FirstIndexIs(list: seq<Candidate>, i: nat)
    requires i < |list| && FirstOfSlug(list, i)
    ensures FirstIndex(list, list[i].slug) == Some(i)
  {
    var n := |list| - 1;
    if i < n {
      FirstIndexIs(list[..n], i);
    } else {
      assert forall j | 0 <= j < n :: list[..n][j].slug != list[n].slug;
    }
  }

  lemma {:induction false} FirstIndexIsFirst(list: seq<Candidate>, slug: string)
    ensures FirstIndex(list, slug).Some? ==> FirstOfSlug(list, FirstIndex(list, slug).value)
  {
    if list != [] {
      var n := |list| - 1;
      FirstIndexIsFirst(list[..n], slug);
      if FirstIndex(list[..n], slug).None? {
        assert forall j | 0 <= j < n :: list[..n][j] == list[j];
      }
    }
  }

  /** Filtering moves a kept row forward, and only rows from before it stand before it. */
  lemma {:induction false} KeptMovesForward<T>(list: seq<T>, p: T -> bool, i: nat) returns (k: nat)
    requires i < |list| && p(list[i])
    ensures k <= i && k < |Keep(list, p)| && Keep(list, p)[k] == list[i]
    ensures forall m | 0 <= m < k :: Keep(list, p)[m] in list[..i]
  {
    var head := if p(list[0]) then [list[0]] else [];
    if i == 0 {
      k := 0;
    } else {
      var t := KeptMovesForward(list[1..], p, i - 1);
      k := t + |head|;
      forall m | 0 <= m < k ensures Keep(list, p)[m] in list[..i] {
        if m < |head| {
          assert list[..i][0] == list[0];
        } else {
          assert Keep(list[1..], p)[m - |head|] in list[1..][..i - 1];
          assert list[1..][..i - 1] == list[1..i];
          assert list[..i] == [list[0]] + list[1..i];
        }
      }
    }
  }

  lemma {:induction false} KeepEverything<T>(list: seq<T>, p: T -> bool)
    requires forall x | x in list :: p(x)
    ensures Keep(list, p) == list
  {
    if list != [] {
      assert list == [list[0]] + list[1..];
      KeepEverything(list[1..], p);
    }
  }

  lemma OpenSemanticPage(nearest: seq<Candidate>, cut: nat)
    ensures SemanticPage(nearest, NO_FILTERS, cut) == Take(nearest, cut)
  {
    forall c | c in nearest ensures Passes(NO_FILTERS, c.attributes) {
      NoFiltersPass(c.attributes);
    }
    KeepEverything(nearest, (c: Candidate) => Passes(NO_FILTERS, c.attributes));
  }

  /** The first semantic row of a slug stays the first, if it passes the filters. */
  lemma FirstSemanticRowStays(nearest: seq<Candidate>, f: Filters, cut: nat, i: nat) returns (k: nat)
    requires i < |Take(nearest, cut)| && FirstOfSlug(Take(nearest, cut), i) && Passes(f, nearest[i].attributes)
    ensures k < |SemanticPage(nearest, f, cut)| && SemanticPage(nearest, f, cut)[k] == nearest[i]
    ensures FirstOfSlug(SemanticPage(nearest, f, cut), k)
  {
    var p := (c: Candidate) => Passes(f, c.attributes);
    k := KeptMovesForward(nearest, p, i);
    var page := SemanticPage(nearest, f, cut);
    forall m | 0 <= m < k ensures page[m].slug != page[k].slug {
      assert Keep(nearest, p)[m] in nearest[..i];
      var j :| 0 <= j < i && nearest[j] == Keep(nearest, p)[m];
      assert Take(nearest, cut)[j] == nearest[j];
    }
  }

  lemma LexicalRowIsShown(lexical: seq<Candidate>, semantic: seq<Candidate>, boosts: Boosts, cap: real, c: Candidate)
    requires LexicalPage(lexical) && c in lexical
    ensures Mentions(lexical, c.slug) && Entry(lexical, semantic, boosts, cap, c.slug).candidate == c
  {
    var i :| 0 <= i < |lexical| && lexical[i] == c;
    var at := LastIndex(lexical, c.slug);
    assert at.Some? && at.value == i;
  }

  lemma SemanticRowIsShown(lexical: seq<Candidate>, semantic: seq<Candidate>, boosts: Boosts, cap: real, k: nat)
    requires k < |semantic| && FirstOfSlug(semantic, k) && !Mentions(lexical, semantic[k].slug)
    ensures Mentions(semantic, semantic[k].slug)
    ensures Entry(lexical, semantic, boosts, cap, semantic[k].slug).candidate == semantic[k]
  {
    FirstIndexIs(semantic, k);
    assert LastIndex(lexical, semantic[k].slug).None?;
  }

  lemma EntryRowIsListed(lexical: seq<Candidate>, semantic: seq<Candidate>, boosts: Boosts, cap: real, slug: string)
    requires Mentions(lexical, slug) || Mentions(semantic, slug)
    ensures var c := Entry(lexical, semantic, boosts, cap, slug).candidate;
      && c.slug == slug
      && (Mentions(lexical, slug) ==> c in lexical)
      && (!Mentions(lexical, slug) ==>
            exists i | 0 <= i < |semantic| :: semantic[i] == c && FirstOfSlug(semantic, i))
  {
    if !Mentions(lexical, slug) {
      assert LastIndex(lexical, slug).None?;
      FirstIndexIsFirst(semantic, slug);
      assert FirstIndex(semantic, slug).Some?;
    }
  }

  lemma SemanticSlug(semantic: seq<Candidate>, k: nat)
    requires k < |semantic|
    ensures Mentions(semantic, semantic[k].slug)
  {
  }

  lemma VisibleRowPasses(profile: Profile, caller: Caller, c: Candidate, lifecycles: set<Lifecycle>)
    requires CandidateVisible(profile, caller, c) && c.attributes.lifecycle in lifecycles
      && lifecycles <= profile.exactRead
    requires !UnbackedReviewer(caller)
    ensures Passes(PushedDown(caller), c.attributes)
  {
    PushDownIsSafeIff(profile, caller);
  }

  /** In every mode: a slug shown without the filters in SQL is still mentioned with them, and is shown
      exactly when fewer entries than the limit come before its own and the row of its entry is
      visible. That row can only be another one than before when the lexical page has gained the slug. */
  lemma ShownSlugStaysIff(
    docs: seq<Document>, r: Request, s: Signals, nearest: seq<Candidate>, cut: nat, profile: Profile, caller: Caller,
    slug: string)
    requires KeyedDocuments(docs) && forall c | c in nearest :: c.attributes.lifecycle in r.lifecycles
    requires !UnbackedReviewer(caller) && r.filters == PushedDown(caller) && {} < r.lifecycles <= profile.exactRead
    requires Shows(Search(docs, r.(filters := NO_FILTERS), Seen(s, nearest, NO_FILTERS, cut), profile, caller), slug)
    ensures var before, lexical := SearchCandidates(docs, r.(filters := NO_FILTERS)), SearchCandidates(docs, r);
      var semantic, boosts := SemanticUsed(Seen(s, nearest, r.filters, cut)), BoostsUsed(s);
      && (Mentions(lexical, slug) || Mentions(semantic, slug))
      && (Shows(Search(docs, r, Seen(s, nearest, r.filters, cut), profile, caller), slug) <==>
            && |EntriesAhead(lexical, semantic, boosts, s.boostCap, slug)| < r.limit
            && CandidateVisible(profile, caller, Entry(lexical, semantic, boosts, s.boostCap, slug).candidate))
      && (Mentions(before, slug) || !Mentions(lexical, slug) ==>
            CandidateVisible(profile, caller, Entry(lexical, semantic, boosts, s.boostCap, slug).candidate))
  {
    hide Search, SearchCandidates, EntriesAhead, CandidateVisible, Entry, Mentions, PushedDown, UnbackedReviewer,
      FirstOfSlug, SemanticPage;
    var open := r.(filters := NO_FILTERS);
    var was, now := Seen(s, nearest, NO_FILTERS, cut), Seen(s, nearest, r.filters, cut);
    SlugIsShownInAnyModeIff(docs, open, was, profile, caller, slug);
    SlugIsShownInAnyModeIff(docs, r, now, profile, caller, slug);
    var before, lexical := SearchCandidates(docs, open), SearchCandidates(docs, r);
    var c := Entry(before, SemanticUsed(was), BoostsUsed(s), s.boostCap, slug).candidate;
    EntryRowIsListed(before, SemanticUsed(was), BoostsUsed(s), s.boostCap, slug);
    if Mentions(before, slug) {
      VisibleRowStaysOnThePage(docs, r, profile, caller, c);
      PageIsLexicalPage(docs, r);
      LexicalRowIsShown(lexical, SemanticUsed(now), BoostsUsed(s), s.boostCap, c);
    } else {
      OpenSemanticPage(nearest, cut);
      var i :| 0 <= i < |SemanticUsed(was)| && SemanticUsed(was)[i] == c && FirstOfSlug(SemanticUsed(was), i);
      assert nearest[i] == c && c in nearest;
      VisibleRowPasses(profile, caller, c, r.lifecycles);
      var k := FirstSemanticRowStays(nearest, r.filters, cut, i);
      SemanticSlug(SemanticUsed(now), k);
      if !Mentions(lexical, slug) {
        SemanticRowIsShown(lexical, SemanticUsed(now), BoostsUsed(s), s.boostCap, k);
      }
    }
  }

  // --- A slug that falls off the fused page ---------------------------------------------------------

  function Skill(versionFk: int, slug: string, namespace: string, installs: int, textHit: bool): Document {
    var attributes := Attributes(Published, namespace, Approved, Prod, Untrusted, None);
    Document(versionFk, slug, slug, "1.0.0", slug, {}, attributes, 0, 0, installs, textHit, 0.0)
  }

  const TOOL: Document := Skill(1, "tool", "public", 1, true)
  const BETA: Document := Skill(2, "beta", "public", 2, false)
  const SIDE: Document := Skill(3, "side", "team", 0, false)

  function TextRequest(f: Filters): Request {
    Request(Some("words"), Some("words"), {}, None, None, {Published}, {Untrusted}, f, 1)
  }

  const HYBRID: Signals := Signals(Hybrid, [], false, [], map[], 0.0)

  lemma OnlyTheHitIsSelected(f: Filters, d: Document)
    requires d == TOOL || d == BETA || d == SIDE
    requires f == NO_FILTERS || f == PushedDown(READER)
    ensures Selected(d, TextRequest(f)) <==> d.slug == "tool"
    ensures Passes(f, d.attributes) <==> f == NO_FILTERS || d.slug != "side"
  {
    var r := TextRequest(f);
    TextClauseMeansOccurs(d, r);
    assert |"words"| > |"beta"| && |"words"| > |"side"| && |"words"| > |"tool"|;
    assert "beta"[0] != "tool"[0] && "side"[0] != "tool"[0] && "side"[0] != "beta"[0] && "team"[0] != "public"[0];
    NoFiltersPass(d.attributes);
  }

  lemma OneHitOnThePage(docs: seq<Document>, r: Request)
    requires |docs| == 3 && KeyedDocuments(docs) && r.limit == 1
    requires Selected(docs[0], r) && !Selected(docs[1], r) && !Selected(docs[2], r)
    ensures SearchCandidates(docs, r) == [Project(docs[0], r)]
  {
    hide Selected, Project, Before;
    assert docs[1..][0] == docs[1] && docs[1..][1..] == docs[2..] && docs[2..][0] == docs[2] && docs[2..][1..] == [];
    assert Filtered(docs[2..][1..], r) == [];
    assert Filtered(docs[2..], r) == [];
    assert Filtered(docs[1..], r) == [];
    var c := Project(docs[0], r);
    assert Filtered(docs, r) == [c];
    BeforeIsStrictOrder();
    assert BestRow(docs, r, c);
    BestRowIsOnThePageIff(docs, r, c);
    assert SlugsAhead(docs, r, c) == {};
  }

  lemma EntriesOfTwo(lexical: Candidate, semantic: Candidate)
    requires lexical.slug != semantic.slug
    ensures Mentions([lexical], lexical.slug) && Mentions([semantic], semantic.slug)
    ensures Entry([lexical], [semantic], map[], 0.0, lexical.slug) == LexicalEntry(lexical, 1, map[], 0.0)
    ensures Entry([lexical], [semantic], map[], 0.0, semantic.slug) == SemanticEntry(semantic, 1, map[], 0.0)
    ensures SlugOrder([lexical], [semantic]) == [lexical.slug, semantic.slug]
  {
    var key, slugs := (s: string) => s, [lexical.slug, semantic.slug];
    assert Slugs([lexical]) + Slugs([semantic]) == slugs;
    assert slugs[..1] == [lexical.slug] && slugs[..1][..0] == [];
    assert [lexical][0].slug == lexical.slug && [semantic][0].slug == semantic.slug;
    assert FirstPerKey(key, slugs[..1]) == [lexical.slug];
    assert LastIndex([lexical], semantic.slug).None? && LastIndex([semantic], lexical.slug).None?;
    assert LastIndex([lexical], lexical.slug) == Some(0) && LastIndex([semantic], semantic.slug) == Some(0);
  }

  /** Of one lexical and one semantic row with nothing but their install counts to tell them apart,
      the one with more installs comes first. */
  lemma MoreInstallsFirst(lexical: Candidate, semantic: Candidate)
    requires lexical.slug != semantic.slug && lexical.usageCount != semantic.usageCount
    requires !lexical.exactSlugMatch && !lexical.exactNameMatch && !semantic.exactSlugMatch && !semantic.exactNameMatch
    requires lexical.tagOverlapCount == semantic.tagOverlapCount
    ensures Mentions([lexical], lexical.slug)
    ensures |EntriesAhead([lexical], [semantic], map[], 0.0, lexical.slug)| < 1
      <==> lexical.usageCount > semantic.usageCount
  {
    EntriesOfTwo(lexical, semantic);
    var ahead := EntriesAhead([lexical], [semantic], map[], 0.0, lexical.slug);
    assert !Precedes([lexical], [semantic], map[], 0.0, lexical.slug, lexical.slug) by { FusedBeforeIsStrictOrder(); }
    if semantic.usageCount > lexical.usageCount {
      assert semantic.slug in ahead;
    } else {
      assert ahead == {};
    }
  }

  lemma KeepTwoOfThree<T>(x: T, b: T, a: T, p: T -> bool)
    requires !p(x) && p(b) && p(a)
    ensures Take(Keep([x, b, a], p), 1) == [b]
  {
    assert [x, b, a][1..] == [b, a] && [b, a][1..] == [a] && [a][1..] == [];
    assert Keep([a], p) == [a] && Keep([b, a], p) == [b, a];
  }

  lemma PagesOfTheExample(f: Filters)
    requires f == NO_FILTERS || f == PushedDown(READER)
    ensures SearchCandidates([TOOL, BETA, SIDE], TextRequest(f)) == [Project(TOOL, TextRequest(f))]
    ensures Passes(f, TOOL.attributes) && Passes(f, BETA.attributes)
      && (Passes(f, SIDE.attributes) <==> f == NO_FILTERS)
  {
    assert "beta"[0] != "tool"[0] && "side"[0] != "tool"[0] && "side"[0] != "beta"[0];
    OnlyTheHitIsSelected(f, TOOL);
    OnlyTheHitIsSelected(f, BETA);
    OnlyTheHitIsSelected(f, SIDE);
    hide Selected, Passes;
    OneHitOnThePage([TOOL, BETA, SIDE], TextRequest(f));
  }

  lemma SemanticPagesOfTheExample(a: Candidate, b: Candidate, x: Candidate)
    requires a.attributes == TOOL.attributes && b.attributes == BETA.attributes && x.attributes == SIDE.attributes
    ensures SemanticPage([x, b, a], NO_FILTERS, 1) == [x] && SemanticPage([x, b, a], PushedDown(READER), 1) == [b]
  {
    var f := PushedDown(READER);
    PagesOfTheExample(f);
    assert f != NO_FILTERS;
    hide Passes, PushedDown;
    OpenSemanticPage([x, b, a], 1);
    KeepTwoOfThree(x, b, a, (c: Candidate) => Passes(f, c.attributes));
  }

  lemma RowsOfTheExample(a: Candidate, b: Candidate, x: Candidate)
    requires var r := TextRequest(PushedDown(READER));
      a == Project(TOOL, r) && b == Project(BETA, r) && x == Project(SIDE, r)
    ensures Project(TOOL, TextRequest(NO_FILTERS)) == a
    ensures a.slug == "tool" && b.slug == "beta" && x.slug == "side" && b.slug != a.slug && a.slug != x.slug
    ensures a.usageCount == 1 && b.usageCount == 2 && x.usageCount == 0
    ensures forall c | c in [a, b, x] :: !c.exactSlugMatch && !c.exactNameMatch && c.tagOverlapCount == 0
    ensures a.attributes == TOOL.attributes && b.attributes == BETA.attributes && x.attributes == SIDE.attributes
    ensures CandidateVisible(DEFAULT_PROFILE, READER, a) && !UnbackedReviewer(READER)
  {
    assert |"words"| != |"tool"| && |"words"| != |"beta"| && |"words"| != |"side"|;
    assert "beta"[0] != "tool"[0] && "side"[0] != "tool"[0];
  }

  /** It happens in hybrid mode: the filters hide the nearest row, which the caller could not see
      anyway, the next semantic row moves up, and the only lexical hit falls off the page. */
  lemma AShownSlugCanFallOff()
    ensures var docs, open, r := [TOOL, BETA, SIDE], TextRequest(NO_FILTERS), TextRequest(PushedDown(READER));
      var nearest := [Project(SIDE, r), Project(BETA, r), Project(TOOL, r)];
      && !UnbackedReviewer(READER)
      && Shows(Search(docs, open, Seen(HYBRID, nearest, NO_FILTERS, 1), DEFAULT_PROFILE, READER), "tool")
      && !Shows(Search(docs, r, Seen(HYBRID, nearest, r.filters, 1), DEFAULT_PROFILE, READER), "tool")
  {
    var docs, open, r := [TOOL, BETA, SIDE], TextRequest(NO_FILTERS), TextRequest(PushedDown(READER));
    var a, b, x := Project(TOOL, r), Project(BETA, r), Project(SIDE, r);
    RowsOfTheExample(a, b, x);
    PagesOfTheExample(NO_FILTERS);
    PagesOfTheExample(PushedDown(READER));
    SemanticPagesOfTheExample(a, b, x);
    hide Selected, SearchCandidates, Skill, PushedDown, Search, EntriesAhead, CandidateVisible, Mentions, Entry,
      SemanticPage, Passes, Project;
    SlugIsShownInAnyModeIff(docs, open, Seen(HYBRID, [x, b, a], NO_FILTERS, 1), DEFAULT_PROFILE, READER, "tool");
    SlugIsShownInAnyModeIff(docs, r, Seen(HYBRID, [x, b, a], r.filters, 1), DEFAULT_PROFILE, READER, "tool");
    MoreInstallsFirst(a, x);
    MoreInstallsFirst(a, b);
    EntriesOfTwo(a, x);
  }
}
