/** The version list, the current default and the catalogue, key by key. */
module CatalogueOrder {
  import opened Collections
  import opened Governance
  import opened GroupRanking
  import opened Orders
  import opened SearchOrder
  import opened SearchRanking
  import opened VersionDefaults

  /** a is listed before b: published before deprecated before archived, then the newer one, then by version
      text. */
  ghost predicate ListedEarlier(a: VersionRow, b: VersionRow) {
    var s, t := a.attributes.lifecycle, b.attributes.lifecycle;
    if s != t then s == Published || t == Archived
    else if a.publishedAt != b.publishedAt then a.publishedAt > b.publishedAt
    else Precedent(a.version, b.version)
  }

  lemma ListedBeforeIff(a: VersionRow, b: VersionRow)
    ensures ListedBefore(a, b) <==> ListedEarlier(a, b)
  {
    TextBeforeIff(a.version, b.version);
  }

  ghost predicate Lists(list: seq<Listed>, v: VersionRow) {
    exists l | l in list :: l.row == v
  }

  /** In order, and flagged exactly at the first version that is not archived. */
  ghost predicate WellListed(list: seq<Listed>) {
    && (forall i, j | 0 <= i < j < |list| :: ListedEarlier(list[i].row, list[j].row))
    && forall i | 0 <= i < |list| ::
         list[i].isCurrentDefault <==>
           && list[i].row.attributes.lifecycle != Archived
           && forall j | 0 <= j < i :: list[j].row.attributes.lifecycle == Archived
  }

  ghost predicate IsFirstLive(sorted: seq<VersionRow>, i: nat)
    requires i < |sorted|
  {
    Live(sorted[i]) && forall j | 0 <= j < i :: !Live(sorted[j])
  }

  /** The version of a row is the one selected. */
  predicate Carries(v: VersionRow, current: Option<VersionRow>) {
    current.Some? && v.version == current.value.version
  }

  lemma SortIgnoresSorted(sorted: seq<VersionRow>)
    requires Sorted(ListedBefore, sorted) && StrictOrder(ListedBefore)
    ensures Sort(ListedBefore, sorted) == sorted
  {
    SortSorts(ListedBefore, sorted);
    SortKeepsElements(ListedBefore, sorted);
    SortedIsUnique(ListedBefore, Sort(ListedBefore, sorted), sorted);
  }

  lemma {:induction false} FirstLiveIsMember(sorted: seq<VersionRow>)
    ensures FirstLive(sorted).Some? ==> FirstLive(sorted).value in sorted && Live(FirstLive(sorted).value)
  {
    if sorted != [] && !Live(sorted[0]) {
      FirstLiveIsMember(sorted[1..]);
    }
  }

  lemma {:induction false} FirstLiveAt(sorted: seq<VersionRow>)
    requires DistinctVersions(sorted)
    ensures forall i | 0 <= i < |sorted| :: Carries(sorted[i], FirstLive(sorted)) <==> IsFirstLive(sorted, i)
  {
    if sorted != [] && !Live(sorted[0]) {
      var tail := sorted[1..];
      FirstLiveAt(tail);
      forall i | 0 <= i < |sorted| ensures Carries(sorted[i], FirstLive(sorted)) <==> IsFirstLive(sorted, i) {
        if i > 0 {
          assert sorted[i] == tail[i - 1];
          assert forall j | 1 <= j < i :: sorted[j] == tail[j - 1];
          assert IsFirstLive(sorted, i) <==> IsFirstLive(tail, i - 1);
        } else {
          FirstLiveIsMember(tail);
        }
      }
    }
  }

  lemma FlagsOfSorted(sorted: seq<VersionRow>)
    requires Sorted(ListedBefore, sorted) && StrictOrder(ListedBefore) && DistinctVersions(sorted)
    ensures forall i | 0 <= i < |sorted| :: Carries(sorted[i], SelectCurrentDefault(sorted)) <==> IsFirstLive(sorted, i)
  {
    SortIgnoresSorted(sorted);
    FirstLiveAt(sorted);
  }

  lemma SortedListing(sorted: seq<VersionRow>, list: seq<Listed>)
    requires Sorted(ListedBefore, sorted) && StrictOrder(ListedBefore) && DistinctVersions(sorted)
    requires var current := SelectCurrentDefault(sorted);
      && |list| == |sorted|
      && forall i | 0 <= i < |list| ::
           list[i] == Listed(sorted[i], current.Some? && sorted[i].version == current.value.version)
    ensures WellListed(list) && forall v :: Lists(list, v) <==> v in sorted
  {
    forall i, j | 0 <= i < j < |list| ensures ListedEarlier(list[i].row, list[j].row) {
      ListedBeforeIff(sorted[i], sorted[j]);
    }
    forall v ensures Lists(list, v) <==> v in sorted {
      if v in sorted {
        var k :| 0 <= k < |sorted| && sorted[k] == v;
        assert list[k].row == v && list[k] in list;
      }
    }
    FlagsOfSorted(sorted);
  }

  lemma SortedVisible(visible: seq<VersionRow>)
    requires DistinctVersions(visible)
    ensures Sorted(ListedBefore, Sort(ListedBefore, visible)) && StrictOrder(ListedBefore)
    ensures DistinctVersions(Sort(ListedBefore, visible))
    ensures forall v :: v in Sort(ListedBefore, visible) <==> v in visible
  {
    ListedBeforeIsStrictOrder();
    ListedBeforeSeparates(visible);
    SortSorts(ListedBefore, visible);
    SortKeepsElements(ListedBefore, visible);
    var sorted := Sort(ListedBefore, visible);
    assert forall v :: v in sorted <==> v in Elements(sorted);
    assert forall v :: v in visible <==> v in Elements(visible);
    forall i, j | 0 <= i < j < |sorted| ensures sorted[i].version != sorted[j].version {
      assert ListedBefore(sorted[i], sorted[j]) && sorted[i] in visible && sorted[j] in visible;
      if sorted[i].version == sorted[j].version {
        SameVersionSameRow(visible, sorted[i], sorted[j]);
      }
    }
  }

  /** The version list of a skill: every visible version of it and nothing else, in that order and flagged
      that way; not found when nothing is visible. */
  lemma VersionListInKeys(rows: seq<VersionRow>, slug: string, profile: Profile, caller: Caller)
    requires KeyedVersions(rows)
    ensures var list := ListVersions(rows, slug, profile, caller);
      && (list.None? <==> forall v | v in rows && v.slug == slug :: !VisibleInList(profile, caller, v.attributes))
      && (list.Some? ==>
            && WellListed(list.value)
            && forall v ::
               Lists(list.value, v) <==> v in rows && v.slug == slug && VisibleInList(profile, caller, v.attributes))
  {
    hide WellListed, Lists, ListedEarlier, ListedBefore, SelectCurrentDefault, Sort, Sorted, StrictOrder,
      DistinctVersions, KeyedVersions, VisibleInList, VisibleRows;
    var visible := VisibleRows(rows, slug, profile, caller);
    RowsOfOneSkill(rows, slug, profile, caller);
    if visible != [] {
      assert visible[0] in visible;
      SortedVisible(visible);
      SortedListing(Sort(ListedBefore, visible), ListVersions(rows, slug, profile, caller).value);
    }
  }

  /** The current default: of the versions that are not archived, the one listed before all others. */
  lemma DefaultInKeys(rows: seq<VersionRow>, v: VersionRow)
    requires DistinctVersions(rows)
    ensures SelectCurrentDefault(rows) == Some(v) <==>
      && v in rows && v.attributes.lifecycle != Archived
      && forall w | w in rows && w != v && w.attributes.lifecycle != Archived :: ListedEarlier(v, w)
  {
    SelectionFindsTheDefault(rows, v);
    ListedBeforeIsStrictOrder();
    ListedBeforeSeparates(rows);
    forall w | w in rows && v in rows && w != v ensures ListedBefore(v, w) <==> !ListedBefore(w, v) {
      var i :| 0 <= i < |rows| && rows[i] == v;
      var j :| 0 <= j < |rows| && rows[j] == w;
    }
    forall w ensures ListedBefore(v, w) <==> ListedEarlier(v, w) {
      ListedBeforeIff(v, w);
    }
  }

  /** The number of installs of a skill. */
  function InstallsOf(installs: map<string, nat>, slug: string): nat {
    if slug in installs then installs[slug] else 0
  }

  ghost predicate DistinctSlugs(rows: seq<VersionRow>) {
    forall i, j | 0 <= i < j < |rows| :: rows[i].slug != rows[j].slug
  }

  lemma SameSlugSameRow(rows: seq<VersionRow>, a: VersionRow, b: VersionRow)
    requires DistinctSlugs(rows) && a in rows && b in rows && a.slug == b.slug
    ensures a == b
  {
    var i :| 0 <= i < |rows| && rows[i] == a;
    var j :| 0 <= j < |rows| && rows[j] == b;
  }

  lemma CatalogBeforeIsStrictOrder(installs: map<string, nat>)
    ensures StrictOrder((a, b) => CatalogBefore(installs, a, b))
  {
    forall a, b, c | CatalogBefore(installs, a, b) && CatalogBefore(installs, b, c)
      ensures CatalogBefore(installs, a, c)
    {
      if TextBefore(a.slug, b.slug) && TextBefore(b.slug, c.slug) {
        TextBeforeTransitive(a.slug, b.slug, c.slug);
      }
    }
    forall a ensures !CatalogBefore(installs, a, a) {
      TextBeforeIsStrict(a.slug);
    }
  }

  lemma CatalogBeforeSeparates(installs: map<string, nat>, rows: seq<VersionRow>)
    requires DistinctSlugs(rows)
    ensures Separates((a, b) => CatalogBefore(installs, a, b), rows)
  {
    forall i, j | 0 <= i < j < |rows|
      ensures CatalogBefore(installs, rows[i], rows[j]) || CatalogBefore(installs, rows[j], rows[i])
    {
      TextBeforeSeparates(rows[i].slug, rows[j].slug);
    }
  }

  lemma {:induction false} KeepSorted<T(!new)>(before: (T, T) -> bool, s: seq<T>, p: T -> bool)
    requires Sorted(before, s)
    ensures Sorted(before, Keep(s, p)) && forall x | x in Keep(s, p) :: x in s
  {
    if s != [] {
      KeepSorted(before, s[1..], p);
      assert s == [s[0]] + s[1..];
      var rest := Keep(s[1..], p);
      forall k | 0 <= k < |rest| ensures before(s[0], rest[k]) {
        assert rest[k] in s[1..];
        var m :| 0 <= m < |s[1..]| && s[1..][m] == rest[k];
      }
    }
  }

  lemma {:induction false} DefaultsAreDistinct(rows: seq<VersionRow>, slugs: seq<string>)
    requires KeyedVersions(rows) && Distinct(slugs)
    ensures DistinctSlugs(Defaults(rows, slugs))
    ensures forall v | v in Defaults(rows, slugs) :: v.slug in slugs
  {
    if slugs != [] {
      DefaultsAreDistinct(rows, slugs[1..]);
      var current := SelectCurrentDefault(RowsOf(rows, slugs[0]));
      assert slugs == [slugs[0]] + slugs[1..];
      if current.Some? {
        RowsOfOneSkill(rows, slugs[0], DEFAULT_PROFILE, Caller("", {}, []));
        SelectionFindsTheDefault(RowsOf(rows, slugs[0]), current.value);
        var rest := Defaults(rows, slugs[1..]);
        forall k | 0 <= k < |rest| ensures rest[k].slug != slugs[0] {
          assert rest[k] in rest;
        }
      }
    }
  }

  lemma DefaultsOfSlugs(live: seq<VersionRow>)
    requires KeyedVersions(live)
    ensures DistinctSlugs(Defaults(live, SlugsOf(live)))
  {
    var key, all := (s: string) => s, seq(|live|, i requires 0 <= i < |live| => live[i].slug);
    FirstPerKeyMembers(key, all);
    var slugs := SlugsOf(live);
    forall i, j | 0 <= i < j < |slugs| ensures slugs[i] != slugs[j] {
      assert key(slugs[i]) != key(slugs[j]);
    }
    DefaultsAreDistinct(live, slugs);
  }

  /** The catalogue: one card a skill, the most installed skills first, then the newest default, then by
      slug. */
  lemma CatalogInKeys(rows: seq<VersionRow>, installs: map<string, nat>, profile: Profile, caller: Caller, i: nat,
      j: nat)
    requires KeyedVersions(rows) && i < j < |ListCatalog(rows, installs, profile, caller)|
    ensures var a, b := ListCatalog(rows, installs, profile, caller)[i],
      ListCatalog(rows, installs, profile, caller)[j];
      && a.slug != b.slug
      && InstallsOf(installs, a.slug) >= InstallsOf(installs, b.slug)
      && (InstallsOf(installs, a.slug) == InstallsOf(installs, b.slug) ==>
            a.publishedAt > b.publishedAt || (a.publishedAt == b.publishedAt && Precedent(a.slug, b.slug)))
  {
    var live := Keep(rows, Live);
    var defaults, before := Defaults(live, SlugsOf(live)), (a, b) => CatalogBefore(installs, a, b);
    KeepRows(rows, Live);
    DefaultsOfSlugs(live);
    CatalogBeforeIsStrictOrder(installs);
    CatalogBeforeSeparates(installs, defaults);
    SortSorts(before, defaults);
    var sorted := Sort(before, defaults);
    KeepSorted(before, sorted, (v: VersionRow) => Visible(profile, caller, v));
    var a, b := ListCatalog(rows, installs, profile, caller)[i], ListCatalog(rows, installs, profile, caller)[j];
    assert before(a, b);
    TextBeforeIff(a.slug, b.slug);
    SortKeepsElements(before, defaults);
    assert a in sorted && b in sorted && (forall v :: v in sorted <==> v in Elements(sorted));
    assert forall v :: v in defaults <==> v in Elements(defaults);
    if a.slug == b.slug {
      SameSlugSameRow(defaults, a, b);
    }
  }
}
