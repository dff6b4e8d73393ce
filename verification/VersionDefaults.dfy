/** Which version of a skill is its current default, and the three endpoints that must agree
    about it: the version list, the catalogue and the catalogue search. */
module VersionDefaults {
  import opened Collections
  import opened GroupRanking
  import opened Orders
  import opened Governance
  import opened SearchRanking

  datatype VersionRow = VersionRow(slug: string, version: string, publishedAt: int, attributes: Attributes)

  function LifecyclePriority(l: Lifecycle): nat {
    match l
    case Published => 0
    case Deprecated => 1
    case Archived => 2
  }

  predicate ListedBefore(a: VersionRow, b: VersionRow) {
    var p, q := LifecyclePriority(a.attributes.lifecycle), LifecyclePriority(b.attributes.lifecycle);
    if p != q then p < q
    else if a.publishedAt != b.publishedAt then a.publishedAt > b.publishedAt
    else TextBefore(a.version, b.version)
  }

  predicate Live(v: VersionRow) {
    v.attributes.lifecycle != Archived
  }

  function FirstLive(sorted: seq<VersionRow>): Option<VersionRow> {
    if sorted == [] then None
    else if Live(sorted[0]) then Some(sorted[0])
    else FirstLive(sorted[1..])
  }

  function SelectCurrentDefault(rows: seq<VersionRow>): Option<VersionRow> {
    FirstLive(Sort(ListedBefore, rows))
  }

  /** Versions of one skill are unique (uq_skill_versions_skill_fk_version). */
  ghost predicate DistinctVersions(rows: seq<VersionRow>) {
    forall i, j | 0 <= i < j < |rows| :: rows[i].version != rows[j].version
  }

  ghost predicate KeyedVersions(rows: seq<VersionRow>) {
    forall i, j | 0 <= i < j < |rows| :: rows[i].slug != rows[j].slug || rows[i].version != rows[j].version
  }

  lemma ListedBeforeIsStrictOrder()
    ensures StrictOrder(ListedBefore)
  {
    forall a, b, c | ListedBefore(a, b) && ListedBefore(b, c) ensures ListedBefore(a, c) {
      if TextBefore(a.version, b.version) && TextBefore(b.version, c.version) {
        TextBeforeTransitive(a.version, b.version, c.version);
      }
    }
    forall a ensures !ListedBefore(a, a) { TextBeforeIsStrict(a.version); }
  }

  lemma ListedBeforeSeparates(rows: seq<VersionRow>)
    requires DistinctVersions(rows)
    ensures Separates(ListedBefore, rows)
  {
    forall i, j | 0 <= i < j < |rows| ensures ListedBefore(rows[i], rows[j]) || ListedBefore(rows[j], rows[i]) {
      TextBeforeSeparates(rows[i].version, rows[j].version);
    }
  }

  /** The current default, said without sorting: the live version that no live version precedes. */
  ghost predicate IsDefault(rows: seq<VersionRow>, v: VersionRow) {
    v in rows && Live(v) && forall w | w in rows && Live(w) :: !ListedBefore(w, v)
  }

  lemma {:induction false} FirstLiveOfSorted(sorted: seq<VersionRow>)
    requires StrictOrder(ListedBefore) && Sorted(ListedBefore, sorted)
    ensures FirstLive(sorted).None? <==> forall v | v in sorted :: !Live(v)
    ensures FirstLive(sorted).Some? ==> IsDefault(sorted, FirstLive(sorted).value)
  {
    if sorted != [] {
      var tail := sorted[1..];
      FirstLiveOfSorted(tail);
      assert sorted == [sorted[0]] + tail;
      if Live(sorted[0]) {
        forall w | w in sorted && Live(w) ensures !ListedBefore(w, sorted[0]) {
          var i :| 0 <= i < |sorted| && sorted[i] == w;
          assert i > 0 ==> ListedBefore(sorted[0], sorted[i]);
        }
      }
    }
  }

  /** Selection finds the default when there is one, whatever order the rows come in. */
  lemma SelectionFindsTheDefault(rows: seq<VersionRow>, v: VersionRow)
    requires DistinctVersions(rows)
    ensures SelectCurrentDefault(rows) == Some(v) <==> IsDefault(rows, v)
    ensures SelectCurrentDefault(rows).None? <==> forall w | w in rows :: !Live(w)
  {
    ListedBeforeIsStrictOrder();
    ListedBeforeSeparates(rows);
    SortSorts(ListedBefore, rows);
    SortKeepsElements(ListedBefore, rows);
    var sorted := Sort(ListedBefore, rows);
    assert forall w :: w in sorted <==> w in Elements(sorted);
    assert forall w :: w in rows <==> w in Elements(rows);
    FirstLiveOfSorted(sorted);
    if SelectCurrentDefault(rows).Some? && IsDefault(rows, v) {
      var d := SelectCurrentDefault(rows).value;
      var i :| 0 <= i < |rows| && rows[i] == d;
      var j :| 0 <= j < |rows| && rows[j] == v;
    }
  }

  /** In dates: a published default if any version is published, a deprecated one otherwise, and no
      version of the same status is newer. */
  lemma DefaultIsNewest(rows: seq<VersionRow>, v: VersionRow)
    requires DistinctVersions(rows) && SelectCurrentDefault(rows) == Some(v)
    ensures v.attributes.lifecycle == Published <==> exists w | w in rows :: w.attributes.lifecycle == Published
    ensures v.attributes.lifecycle != Archived
    ensures forall w | w in rows && w.attributes.lifecycle == v.attributes.lifecycle :: w.publishedAt <= v.publishedAt
  {
    SelectionFindsTheDefault(rows, v);
    forall w | w in rows && Live(w) ensures !ListedBefore(w, v) {
    }
  }

  // --- The three endpoints -------------------------------------------------------------------

  predicate Visible(profile: Profile, caller: Caller, v: VersionRow) {
    VisibleInList(profile, caller, v.attributes)
  }

  function RowsOf(rows: seq<VersionRow>, slug: string): seq<VersionRow> {
    Keep(rows, (v: VersionRow) => v.slug == slug)
  }

  function VisibleRows(rows: seq<VersionRow>, slug: string, profile: Profile, caller: Caller): seq<VersionRow> {
    Keep(RowsOf(rows, slug), (v: VersionRow) => Visible(profile, caller, v))
  }

  datatype Listed = Listed(row: VersionRow, isCurrentDefault: bool)

  /** `list_versions`: visible versions only; the default is chosen among them. `None` is not found. */
  function ListVersions(rows: seq<VersionRow>, slug: string, profile: Profile, caller: Caller): Option<seq<Listed>> {
    var visible := VisibleRows(rows, slug, profile, caller);
    if visible == [] then None
    else
      var sorted := Sort(ListedBefore, visible);
      var current := SelectCurrentDefault(sorted);
      Some(seq(|sorted|, i requires 0 <= i < |sorted| =>
        Listed(sorted[i], current.Some? && sorted[i].version == current.value.version)))
  }

  predicate CatalogBefore(installs: map<string, nat>, a: VersionRow, b: VersionRow) {
    var m, n := if a.slug in installs then installs[a.slug] else 0, if b.slug in installs then installs[b.slug] else 0;
    if m != n then m > n
    else if a.publishedAt != b.publishedAt then a.publishedAt > b.publishedAt
    else TextBefore(a.slug, b.slug)
  }

  function Defaults(rows: seq<VersionRow>, slugs: seq<string>): seq<VersionRow> {
    if slugs == [] then []
    else
      var current := SelectCurrentDefault(RowsOf(rows, slugs[0]));
      (if current.Some? then [current.value] else []) + Defaults(rows, slugs[1..])
  }

  function SlugsOf(live: seq<VersionRow>): seq<string> {
    FirstPerKey((s: string) => s, seq(|live|, i requires 0 <= i < |live| => live[i].slug))
  }

  /** `list_catalog_skills`: the default of each skill is chosen first, among its published and
      deprecated versions, and shown if visible. */
  function ListCatalog(rows: seq<VersionRow>, installs: map<string, nat>, profile: Profile,
      caller: Caller): seq<VersionRow> {
    var live := Keep(rows, Live);
    Keep(Sort((a, b) => CatalogBefore(installs, a, b), Defaults(live, SlugsOf(live))), (v: VersionRow) =>
      Visible(profile, caller, v))
  }

  /** The version `search_catalog` may return for one slug. */
  function CatalogCard(rows: seq<VersionRow>, slug: string, profile: Profile, caller: Caller): Option<VersionRow> {
    SelectCurrentDefault(VisibleRows(rows, slug, profile, caller))
  }

  function Cards(rows: seq<VersionRow>, slugs: seq<string>, profile: Profile, caller: Caller): seq<VersionRow> {
    if slugs == [] then []
    else
      var current := CatalogCard(rows, slugs[|slugs| - 1], profile, caller);
      Cards(rows, slugs[..|slugs| - 1], profile, caller) + if current.Some? then [current.value] else []
  }

  lemma CardsSplit(rows: seq<VersionRow>, slugs: seq<string>, i: nat, profile: Profile, caller: Caller)
    requires i < |slugs|
    ensures Cards(rows, slugs[..i + 1], profile, caller) == Cards(rows, slugs[..i], profile, caller)
      + if CatalogCard(rows, slugs[i], profile, caller).Some?
        then [CatalogCard(rows, slugs[i], profile, caller).value] else []
  {
    assert slugs[..i + 1][..i] == slugs[..i];
  }

  lemma {:induction false} CardsArePrefix(rows: seq<VersionRow>, slugs: seq<string>, i: nat, profile: Profile,
      caller: Caller)
    requires i <= |slugs|
    ensures Cards(rows, slugs[..i], profile, caller) <= Cards(rows, slugs, profile, caller)
    decreases |slugs| - i
  {
    if i < |slugs| {
      CardsSplit(rows, slugs, i, profile, caller);
      CardsArePrefix(rows, slugs, i + 1, profile, caller);
    } else {
      assert slugs[..i] == slugs;
    }
  }

  lemma {:induction false} KeepRows(rows: seq<VersionRow>, p: VersionRow -> bool)
    ensures forall v :: v in Keep(rows, p) <==> v in rows && p(v)
    ensures KeyedVersions(rows) ==> KeyedVersions(Keep(rows, p))
  {
    if rows != [] {
      KeepRows(rows[1..], p);
      assert rows == [rows[0]] + rows[1..];
      var rest := Keep(rows[1..], p);
      if KeyedVersions(rows) {
        assert KeyedVersions(rows[1..]);
        forall i | 0 <= i < |rest| ensures rest[i].slug != rows[0].slug || rest[i].version != rows[0].version {
          assert rest[i] in rest;
          var k :| 0 <= k < |rows[1..]| && rows[1..][k] == rest[i];
        }
      }
    }
  }

  lemma RowsOfOneSkill(rows: seq<VersionRow>, slug: string, profile: Profile, caller: Caller)
    requires KeyedVersions(rows)
    ensures forall v :: v in RowsOf(rows, slug) <==> v in rows && v.slug == slug
    ensures forall v ::
      v in VisibleRows(rows, slug, profile, caller) <==> v in rows && v.slug == slug && Visible(profile, caller, v)
    ensures DistinctVersions(RowsOf(rows, slug)) && DistinctVersions(VisibleRows(rows, slug, profile, caller))
  {
    var own, visible := RowsOf(rows, slug), VisibleRows(rows, slug, profile, caller);
    KeepRows(rows, (v: VersionRow) => v.slug == slug);
    KeepRows(own, (v: VersionRow) => Visible(profile, caller, v));
    assert forall i | 0 <= i < |own| :: own[i] in own && own[i].slug == slug;
    assert forall i | 0 <= i < |visible| :: visible[i] in visible && visible[i].slug == slug;
  }

  lemma CardIsVisible(rows: seq<VersionRow>, slug: string, profile: Profile, caller: Caller)
    requires KeyedVersions(rows) && CatalogCard(rows, slug, profile, caller).Some?
    ensures var v := CatalogCard(rows, slug, profile, caller).value;
      v.slug == slug && v in rows && Visible(profile, caller, v)
  {
    RowsOfOneSkill(rows, slug, profile, caller);
    SelectionFindsTheDefault(VisibleRows(rows, slug, profile, caller), CatalogCard(rows, slug, profile, caller).value);
  }

  /** `search_catalog`: one card per discovered slug, skipping slugs without a visible default,
      until the page is full. */
  method SearchCatalog(rows: seq<VersionRow>, slugs: seq<string>, limit: nat, profile: Profile, caller: Caller)
    returns (cards: seq<VersionRow>)
    requires KeyedVersions(rows)
    ensures limit > 0 ==> cards == Take(Cards(rows, slugs, profile, caller), limit)
    ensures forall c | c in cards :: CatalogCard(rows, c.slug, profile, caller) == Some(c)
  {
    cards := [];
    var i := 0;
    while i < |slugs|
      invariant 0 <= i <= |slugs|
      invariant cards == Cards(rows, slugs[..i], profile, caller)
      invariant limit > 0 ==> |cards| < limit
      invariant forall c | c in cards :: CatalogCard(rows, c.slug, profile, caller) == Some(c)
    {
      var current := CatalogCard(rows, slugs[i], profile, caller);
      CardsSplit(rows, slugs, i, profile, caller);
      i := i + 1;
      if current.None? {
        continue;
      }
      CardIsVisible(rows, slugs[i - 1], profile, caller);
      if Visible(profile, caller, current.value) {
        cards := cards + [current.value];
      }
      if |cards| >= limit {
        CardsArePrefix(rows, slugs, i, profile, caller);
        return;
      }
    }
    assert slugs[..i] == slugs;
  }

  // --- Agreement -----------------------------------------------------------------------------

  /** The overall default stays the default among the versions a caller sees, if the caller sees it. */
  lemma VisibleDefaultIsDefaultOfVisible(rows: seq<VersionRow>, slug: string, profile: Profile, caller: Caller,
      v: VersionRow)
    requires KeyedVersions(rows)
    requires IsDefault(RowsOf(rows, slug), v) && Visible(profile, caller, v)
    ensures CatalogCard(rows, slug, profile, caller) == Some(v)
  {
    RowsOfOneSkill(rows, slug, profile, caller);
    SelectionFindsTheDefault(VisibleRows(rows, slug, profile, caller), v);
  }

  lemma {:induction false} DefaultsMembers(rows: seq<VersionRow>, slugs: seq<string>, v: VersionRow)
    ensures v in Defaults(rows, slugs)
      <==> exists i | 0 <= i < |slugs| :: SelectCurrentDefault(RowsOf(rows, slugs[i])) == Some(v)
  {
    if slugs != [] {
      DefaultsMembers(rows, slugs[1..], v);
      if exists i | 0 <= i < |slugs| :: SelectCurrentDefault(RowsOf(rows, slugs[i])) == Some(v) {
        var i :| 0 <= i < |slugs| && SelectCurrentDefault(RowsOf(rows, slugs[i])) == Some(v);
        assert i > 0 ==> slugs[1..][i - 1] == slugs[i];
      }
      assert forall i | 0 <= i < |slugs[1..]| :: slugs[1..][i] == slugs[i + 1];
    }
  }

  /** Dropping archived rows first does not change a skill's default. */
  lemma ArchivedRowsDoNotMatter(rows: seq<VersionRow>, slug: string, v: VersionRow)
    requires KeyedVersions(rows)
    ensures SelectCurrentDefault(RowsOf(Keep(rows, Live), slug)) == Some(v) <==> IsDefault(RowsOf(rows, slug), v)
  {
    var live := Keep(rows, Live);
    KeepRows(rows, Live);
    var anyone := Caller("", {}, []);
    RowsOfOneSkill(rows, slug, DEFAULT_PROFILE, anyone);
    RowsOfOneSkill(live, slug, DEFAULT_PROFILE, anyone);
    SelectionFindsTheDefault(RowsOf(live, slug), v);
  }

  lemma CatalogMembers(rows: seq<VersionRow>, installs: map<string, nat>, profile: Profile, caller: Caller,
      v: VersionRow)
    ensures v in ListCatalog(rows, installs, profile, caller)
      <==> v in Defaults(Keep(rows, Live), SlugsOf(Keep(rows, Live))) && Visible(profile, caller, v)
  {
    var live := Keep(rows, Live);
    var defaults := Defaults(live, SlugsOf(live));
    var order := (a, b) => CatalogBefore(installs, a, b);
    SortKeepsElements(order, defaults);
    assert v in Sort(order, defaults) <==> v in Elements(Sort(order, defaults));
    assert v in defaults <==> v in Elements(defaults);
    KeepRows(Sort(order, defaults), (x: VersionRow) => Visible(profile, caller, x));
  }

  lemma SlugIsListed(live: seq<VersionRow>, v: VersionRow)
    requires v in live
    ensures v.slug in SlugsOf(live)
  {
    var all := seq(|live|, i requires 0 <= i < |live| => live[i].slug);
    var k :| 0 <= k < |live| && live[k] == v;
    assert all[k] == v.slug;
    var b := FirstOfKeyAt((s: string) => s, all, k);
    FirstPerKeyMembers((s: string) => s, all);
  }

  /** The catalogue shows exactly the visible overall defaults. */
  lemma CatalogShowsVisibleDefaults(rows: seq<VersionRow>, installs: map<string, nat>, profile: Profile, caller: Caller,
      v: VersionRow)
    requires KeyedVersions(rows)
    ensures v in ListCatalog(rows, installs, profile, caller)
      <==> IsDefault(RowsOf(rows, v.slug), v) && Visible(profile, caller, v)
  {
    hide ListCatalog, Visible, SlugsOf;
    var live := Keep(rows, Live);
    var slugs := SlugsOf(live);
    CatalogMembers(rows, installs, profile, caller, v);
    KeepRows(rows, Live);
    RowsOfOneSkill(rows, v.slug, profile, caller);
    DefaultsMembers(live, slugs, v);
    if IsDefault(RowsOf(rows, v.slug), v) {
      ArchivedRowsDoNotMatter(rows, v.slug, v);
      SlugIsListed(live, v);
      var i :| 0 <= i < |slugs| && slugs[i] == v.slug;
    } else {
      forall i | 0 <= i < |slugs| ensures SelectCurrentDefault(RowsOf(live, slugs[i])) != Some(v) {
        ArchivedRowsDoNotMatter(rows, slugs[i], v);
        RowsOfOneSkill(rows, slugs[i], profile, caller);
      }
    }
  }

  /** Sorting the visible versions for the listing changes neither which they are nor the default. */
  lemma SortedListAgrees(visible: seq<VersionRow>, v: VersionRow)
    requires DistinctVersions(visible) && SelectCurrentDefault(visible) == Some(v)
    ensures var sorted := Sort(ListedBefore, visible);
      && (forall w :: w in sorted <==> w in visible)
      && v in visible && SelectCurrentDefault(sorted) == Some(v)
  {
    SelectionFindsTheDefault(visible, v);
    var sorted := Sort(ListedBefore, visible);
    ListedBeforeIsStrictOrder();
    ListedBeforeSeparates(visible);
    SortSorts(ListedBefore, visible);
    SortKeepsElements(ListedBefore, visible);
    assert forall w :: w in sorted <==> w in Elements(sorted);
    assert forall w :: w in visible <==> w in Elements(visible);
    assert Separates(ListedBefore, sorted);
    SortIgnoresArrival(ListedBefore, sorted, visible);
  }

  lemma SameVersionSameRow(visible: seq<VersionRow>, v: VersionRow, w: VersionRow)
    requires DistinctVersions(visible) && v in visible && w in visible && v.version == w.version
    ensures v == w
  {
    var a :| 0 <= a < |visible| && visible[a] == v;
    var b :| 0 <= b < |visible| && visible[b] == w;
  }

  /** The version list flags the default among the visible versions, once. */
  lemma ListFlags(rows: seq<VersionRow>, slug: string, profile: Profile, caller: Caller, v: VersionRow)
    requires KeyedVersions(rows) && CatalogCard(rows, slug, profile, caller) == Some(v)
    ensures var listed := ListVersions(rows, slug, profile, caller);
      && listed.Some?
      && (exists l | l in listed.value :: l.row == v && l.isCurrentDefault)
      && (forall l | l in listed.value && l.isCurrentDefault :: l.row == v)
  {
    var visible := VisibleRows(rows, slug, profile, caller);
    RowsOfOneSkill(rows, slug, profile, caller);
    SelectionFindsTheDefault(visible, v);
    hide SelectCurrentDefault, Sort, VisibleRows, KeyedVersions, Visible, DistinctVersions;
    SortedListAgrees(visible, v);
    var sorted, listed := Sort(ListedBefore, visible), ListVersions(rows, slug, profile, caller).value;
    var k :| 0 <= k < |sorted| && sorted[k] == v;
    assert listed[k].row == v && listed[k].isCurrentDefault;
    forall l | l in listed && l.isCurrentDefault ensures l.row == v {
      var i :| 0 <= i < |listed| && listed[i] == l;
      SameVersionSameRow(visible, v, sorted[i]);
    }
  }

  /** If the catalogue shows a version, the version list flags that version and no other as the
      current default, and catalogue search can return no other version of the skill. */
  lemma CatalogAgreesWithVersionListAndSearch(rows: seq<VersionRow>, installs: map<string, nat>, profile: Profile,
      caller: Caller, v: VersionRow)
    requires KeyedVersions(rows) && v in ListCatalog(rows, installs, profile, caller)
    ensures var listed := ListVersions(rows, v.slug, profile, caller);
      && listed.Some?
      && (exists l | l in listed.value :: l.row == v && l.isCurrentDefault)
      && (forall l | l in listed.value && l.isCurrentDefault :: l.row == v)
    ensures CatalogCard(rows, v.slug, profile, caller) == Some(v)
  {
    CatalogShowsVisibleDefaults(rows, installs, profile, caller, v);
    VisibleDefaultIsDefaultOfVisible(rows, v.slug, profile, caller, v);
    ListFlags(rows, v.slug, profile, caller, v);
  }

  /** The converse fails exactly when the overall default is hidden from the caller: then the
      version list may flag an older version while the catalogue omits the skill. */
  lemma CatalogOmitsIffDefaultHidden(rows: seq<VersionRow>, installs: map<string, nat>, profile: Profile,
      caller: Caller, flagged: VersionRow, overall: VersionRow)
    requires KeyedVersions(rows)
    requires CatalogCard(rows, flagged.slug, profile, caller) == Some(flagged)
    requires IsDefault(RowsOf(rows, flagged.slug), overall)
    ensures flagged in ListCatalog(rows, installs, profile, caller) <==> Visible(profile, caller, overall)
    ensures Visible(profile, caller, overall) <==> flagged == overall
  {
    CatalogShowsVisibleDefaults(rows, installs, profile, caller, flagged);
    RowsOfOneSkill(rows, flagged.slug, profile, caller);
    SelectionFindsTheDefault(VisibleRows(rows, flagged.slug, profile, caller), flagged);
    SelectionFindsTheDefault(RowsOf(rows, flagged.slug), flagged);
    SelectionFindsTheDefault(RowsOf(rows, flagged.slug), overall);
    if Visible(profile, caller, overall) {
      VisibleDefaultIsDefaultOfVisible(rows, flagged.slug, profile, caller, overall);
    }
  }

  function Release(version: string, publishedAt: int, reviewState: ReviewState): VersionRow {
    VersionRow("tool", version, publishedAt,
      Attributes(Published, DEFAULT_NAMESPACE, reviewState, Prod, Untrusted, None))
  }

  lemma ListOfOne(rows: seq<VersionRow>, slug: string, caller: Caller, only: VersionRow)
    requires VisibleRows(rows, slug, DEFAULT_PROFILE, caller) == [only] && Live(only)
    ensures ListVersions(rows, slug, DEFAULT_PROFILE, caller) == Some([Listed(only, true)])
  {
    hide VisibleRows;
    assert [only][1..] == [];
    assert Sort(ListedBefore, [only]) == [only];
    assert SelectCurrentDefault([only]) == Some(only);
    var listed := ListVersions(rows, slug, DEFAULT_PROFILE, caller);
    assert listed.value == [Listed(only, true)];
  }

  lemma OnlyRow(rows: seq<VersionRow>, only: VersionRow)
    requires DistinctVersions(rows) && forall v :: v in rows <==> v == only
    ensures rows == [only]
  {
    assert only in rows;
    var i :| 0 <= i < |rows| && rows[i] == only;
    forall j | 0 <= j < |rows| ensures rows[j] == only && j == i {
      assert rows[j] in rows;
    }
    assert rows[0] == only && rows[|rows| - 1] == only;
  }

  lemma OnlyTheOlderIsSeen(older: VersionRow, newer: VersionRow, caller: Caller)
    requires older == Release("1.0.0", 1, Approved) && newer == Release("2.0.0", 2, PendingReview)
      && caller == Caller("t", {Read}, [])
    ensures older.slug == newer.slug == "tool" && Live(older) && KeyedVersions([older, newer])
    ensures !IsDefault(RowsOf([older, newer], "tool"), older)
    ensures VisibleRows([older, newer], "tool", DEFAULT_PROFILE, caller) == [older]
    ensures !Visible(DEFAULT_PROFILE, caller, newer)
  {
    assert older.version[0] != newer.version[0];
    var rows := [older, newer];
    assert Visible(DEFAULT_PROFILE, caller, older) && !Visible(DEFAULT_PROFILE, caller, newer);
    RowsOfOneSkill(rows, "tool", DEFAULT_PROFILE, caller);
    assert ListedBefore(newer, older) && newer in rows && newer in RowsOf(rows, "tool");
    OnlyRow(VisibleRows(rows, "tool", DEFAULT_PROFILE, caller), older);
  }

  /** It happens when the newest version is still waiting for review: a reader without grants sees
      the older version flagged as the current default, and no card in the catalogue. */
  lemma AFlaggedVersionCanBeOmitted(installs: map<string, nat>)
    ensures var older, newer := Release("1.0.0", 1, Approved), Release("2.0.0", 2, PendingReview);
      var rows, caller := [older, newer], Caller("t", {Read}, []);
      && KeyedVersions(rows)
      && ListVersions(rows, "tool", DEFAULT_PROFILE, caller) == Some([Listed(older, true)])
      && older !in ListCatalog(rows, installs, DEFAULT_PROFILE, caller)
      && newer !in ListCatalog(rows, installs, DEFAULT_PROFILE, caller)
  {
    var older, newer := Release("1.0.0", 1, Approved), Release("2.0.0", 2, PendingReview);
    var rows, caller := [older, newer], Caller("t", {Read}, []);
    OnlyTheOlderIsSeen(older, newer, caller);
    ListOfOne(rows, "tool", caller, older);
    CatalogShowsVisibleDefaults(rows, installs, DEFAULT_PROFILE, caller, newer);
    CatalogShowsVisibleDefaults(rows, installs, DEFAULT_PROFILE, caller, older);
  }
}
