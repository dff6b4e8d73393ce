/** Authored relationship selectors: grouped by the author, flattened into rows for storage,
    sorted back for resolution and grouped again for the version checksum. */
module Selectors {
  import opened Collections
  import opened Orders

  datatype EdgeType = DependsOn | Extending | ConflictsWith | OverlapsWith

  const EDGE_TYPES: seq<EdgeType> := [DependsOn, Extending, ConflictsWith, OverlapsWith]

  datatype Selector = Selector(
    slug: string,
    version: Option<string>,
    versionConstraint: Option<string>,
    optional: Option<bool>,
    markers: seq<string>)

  /** The four authored lists. */
  datatype Relationships = Relationships(
    dependsOn: seq<Selector>,
    extending: seq<Selector>,
    conflictsWith: seq<Selector>,
    overlapsWith: seq<Selector>)
  {
    function Of(e: EdgeType): seq<Selector> {
      match e
      case DependsOn => dependsOn
      case Extending => extending
      case ConflictsWith => conflictsWith
      case OverlapsWith => overlapsWith
    }

    function Append(e: EdgeType, s: Selector): Relationships {
      match e
      case DependsOn => this.(dependsOn := dependsOn + [s])
      case Extending => this.(extending := extending + [s])
      case ConflictsWith => this.(conflictsWith := conflictsWith + [s])
      case OverlapsWith => this.(overlapsWith := overlapsWith + [s])
    }
  }

  const NONE: Relationships := Relationships([], [], [], [])

  datatype SelectorRow = SelectorRow(edgeType: EdgeType, ordinal: nat, selector: Selector)

  function EdgeOrder(e: EdgeType): nat {
    match e
    case DependsOn => 0
    case Extending => 1
    case ConflictsWith => 2
    case OverlapsWith => 3
  }

  function RowsFor(e: EdgeType, selectors: seq<Selector>): (r: seq<SelectorRow>)
    ensures |r| == |selectors|
    ensures forall i | 0 <= i < |r| :: r[i] == SelectorRow(e, i, selectors[i])
  {
    seq(|selectors|, i requires 0 <= i < |selectors| => SelectorRow(e, i, selectors[i]))
  }

  /** Rows of the first `n` edge types, in the order the source visits them. */
  function FlattenUpTo(r: Relationships, n: nat): seq<SelectorRow>
    requires n <= 4
  {
    if n == 0 then [] else FlattenUpTo(r, n - 1) + RowsFor(EDGE_TYPES[n - 1], r.Of(EDGE_TYPES[n - 1]))
  }

  function Flatten(r: Relationships): seq<SelectorRow> {
    FlattenUpTo(r, 4)
  }

  /** From position `at` on the rows are those of one type, numbered from zero. */
  ghost predicate Lists(rows: seq<SelectorRow>, at: nat, e: EdgeType, selectors: seq<Selector>) {
    at + |selectors| <= |rows| && forall i | 0 <= i < |selectors| :: rows[at + i] == SelectorRow(e, i, selectors[i])
  }

  lemma PartsInPlace<T>(a: seq<T>, b: seq<T>, c: seq<T>, d: seq<T>)
    ensures var s, n1 := a + b + c + d, |a|; var n2 := n1 + |b|; var n3 := n2 + |c|;
      && |s| == n3 + |d|
      && (forall i | 0 <= i < |a| :: s[0 + i] == a[i]) && (forall i | 0 <= i < |b| :: s[n1 + i] == b[i])
      && (forall i | 0 <= i < |c| :: s[n2 + i] == c[i]) && (forall i | 0 <= i < |d| :: s[n3 + i] == d[i])
  {
  }

  lemma FlattenedIs(r: Relationships)
    ensures Flatten(r) == RowsFor(DependsOn, r.dependsOn) + RowsFor(Extending, r.extending)
                          + RowsFor(ConflictsWith, r.conflictsWith) + RowsFor(OverlapsWith, r.overlapsWith)
  {
    hide RowsFor;
    assert FlattenUpTo(r, 1) == [] + RowsFor(EDGE_TYPES[0], r.Of(EDGE_TYPES[0]));
    assert FlattenUpTo(r, 2) == FlattenUpTo(r, 1) + RowsFor(EDGE_TYPES[1], r.Of(EDGE_TYPES[1]));
    assert FlattenUpTo(r, 3) == FlattenUpTo(r, 2) + RowsFor(EDGE_TYPES[2], r.Of(EDGE_TYPES[2]));
    assert FlattenUpTo(r, 4) == FlattenUpTo(r, 3) + RowsFor(EDGE_TYPES[3], r.Of(EDGE_TYPES[3]));
  }

  /** Dependencies come first, then extensions, conflicts and overlaps, and nothing else. */
  lemma FlattenedAre(r: Relationships)
    ensures var n1 := |r.dependsOn|; var n2 := n1 + |r.extending|; var n3 := n2 + |r.conflictsWith|;
      && |Flatten(r)| == n3 + |r.overlapsWith|
      && Lists(Flatten(r), 0, DependsOn, r.dependsOn) && Lists(Flatten(r), n1, Extending, r.extending)
      && Lists(Flatten(r), n2, ConflictsWith, r.conflictsWith) && Lists(Flatten(r), n3, OverlapsWith, r.overlapsWith)
  {
    var first, second := RowsFor(DependsOn, r.dependsOn), RowsFor(Extending, r.extending);
    var third, fourth := RowsFor(ConflictsWith, r.conflictsWith), RowsFor(OverlapsWith, r.overlapsWith);
    FlattenedIs(r);
    PartsInPlace(first, second, third, fourth);
    hide Flatten;
  }

  method ToRelationshipRecordInputs(r: Relationships) returns (rows: seq<SelectorRow>)
    ensures rows == Flatten(r)
  {
    rows := [];
    var e := 0;
    while e < 4
      invariant 0 <= e <= 4
      invariant rows == FlattenUpTo(r, e)
    {
      var edgeType := EDGE_TYPES[e];
      var selectors := r.Of(edgeType);
      var ordinal := 0;
      while ordinal < |selectors|
        invariant 0 <= ordinal <= |selectors|
        invariant rows == FlattenUpTo(r, e) + RowsFor(edgeType, selectors)[..ordinal]
      {
        rows := rows + [SelectorRow(edgeType, ordinal, selectors[ordinal])];
        ordinal := ordinal + 1;
      }
      assert RowsFor(edgeType, selectors)[..ordinal] == RowsFor(edgeType, selectors);
      e := e + 1;
    }
  }

  /** The grouping that enters the version checksum: rows are appended to the list of their type
      in the order they come, and ordinals are ignored. */
  function Group(rows: seq<SelectorRow>): Relationships {
    if rows == [] then NONE
    else Group(rows[..|rows| - 1]).Append(rows[|rows| - 1].edgeType, rows[|rows| - 1].selector)
  }

  method VersionChecksumRelationships(rows: seq<SelectorRow>) returns (grouped: Relationships)
    ensures grouped == Group(rows)
  {
    grouped := NONE;
    var i := 0;
    while i < |rows|
      invariant 0 <= i <= |rows|
      invariant grouped == Group(rows[..i])
    {
      assert rows[..i + 1][..i] == rows[..i];
      grouped := grouped.Append(rows[i].edgeType, rows[i].selector);
      i := i + 1;
    }
    assert rows[..i] == rows;
  }

  function OfType(rows: seq<SelectorRow>, e: EdgeType): seq<Selector> {
    if rows == [] then []
    else OfType(rows[..|rows| - 1], e) + if rows[|rows| - 1].edgeType == e then [rows[|rows| - 1].selector] else []
  }

  /** Each list of the grouping is the subsequence of rows of that type: nothing else matters. */
  lemma {:induction false} GroupIsByType(rows: seq<SelectorRow>, e: EdgeType)
    ensures Group(rows).Of(e) == OfType(rows, e)
  {
    if rows != [] { GroupIsByType(rows[..|rows| - 1], e); }
  }

  lemma {:induction false} OfTypeOverConcat(a: seq<SelectorRow>, b: seq<SelectorRow>, e: EdgeType)
    ensures OfType(a + b, e) == OfType(a, e) + OfType(b, e)
  {
    if b == [] {
      assert a + b == a;
    } else {
      OfTypeOverConcat(a, b[..|b| - 1], e);
      assert (a + b)[..|a + b| - 1] == a + b[..|b| - 1];
    }
  }

  lemma {:induction false} OfTypeOfRows(e: EdgeType, f: EdgeType, selectors: seq<Selector>)
    ensures OfType(RowsFor(e, selectors), f) == if e == f then selectors else []
  {
    if selectors != [] {
      var n := |selectors| - 1;
      assert RowsFor(e, selectors)[..n] == RowsFor(e, selectors[..n]);
      OfTypeOfRows(e, f, selectors[..n]);
      assert selectors == selectors[..n] + [selectors[n]];
    }
  }

  lemma SameLists(a: Relationships, b: Relationships)
    requires forall e :: a.Of(e) == b.Of(e)
    ensures a == b
  {
    assert a.Of(DependsOn) == b.Of(DependsOn) && a.Of(Extending) == b.Of(Extending);
    assert a.Of(ConflictsWith) == b.Of(ConflictsWith) && a.Of(OverlapsWith) == b.Of(OverlapsWith);
  }

  ghost predicate SameByType(a: seq<SelectorRow>, b: seq<SelectorRow>) {
    forall e :: OfType(a, e) == OfType(b, e)
  }

  /** Two row lists group alike exactly when they agree type by type; so the way rows of different
      types interleave never reaches the checksum. */
  lemma GroupingForgetsInterleaving(a: seq<SelectorRow>, b: seq<SelectorRow>)
    ensures Group(a) == Group(b) <==> SameByType(a, b)
  {
    forall e ensures Group(a).Of(e) == OfType(a, e) && Group(b).Of(e) == OfType(b, e) {
      GroupIsByType(a, e);
      GroupIsByType(b, e);
    }
    if Group(a) == Group(b) {
      assert forall e :: OfType(a, e) == Group(a).Of(e) == Group(b).Of(e) == OfType(b, e);
    } else if SameByType(a, b) {
      SameLists(Group(a), Group(b));
    }
  }

  lemma NoneOfType(e: EdgeType)
    ensures OfType([], e) == []
  {
  }

  lemma {:induction false} FlattenOfType(r: Relationships, n: nat, e: EdgeType)
    requires n <= 4
    ensures OfType(FlattenUpTo(r, n), e) == if EdgeOrder(e) < n then r.Of(e) else []
  {
    hide OfType, RowsFor;
    assert OfType([], e) == [] by { NoneOfType(e); }
    if n > 0 {
      FlattenOfType(r, n - 1, e);
      OfTypeOverConcat(FlattenUpTo(r, n - 1), RowsFor(EDGE_TYPES[n - 1], r.Of(EDGE_TYPES[n - 1])), e);
      OfTypeOfRows(EDGE_TYPES[n - 1], e, r.Of(EDGE_TYPES[n - 1]));
    }
  }

  /** Grouping the flattened rows gives the four authored lists back. */
  lemma GroupAfterFlatten(r: Relationships)
    ensures Group(Flatten(r)) == r
  {
    var grouped := Group(Flatten(r));
    forall e ensures grouped.Of(e) == r.Of(e) {
      GroupIsByType(Flatten(r), e);
      FlattenOfType(r, 4, e);
    }
    SameLists(grouped, r);
  }

  // --- Reading the rows back ------------------------------------------------------------------

  predicate RowBefore(a: SelectorRow, b: SelectorRow) {
    EdgeOrder(a.edgeType) < EdgeOrder(b.edgeType) || (a.edgeType == b.edgeType && a.ordinal < b.ordinal)
  }

  function SortRelationshipSelectors(rows: seq<SelectorRow>): seq<SelectorRow> {
    Sort(RowBefore, rows)
  }

  /** The relationships of a relationship-source read: sorted, then dependencies only. */
  function ResolvedDependencies(rows: seq<SelectorRow>): seq<Selector> {
    OfType(SortRelationshipSelectors(rows), DependsOn)
  }

  /** uq_skill_relationship_selectors_position. */
  predicate UniquePositions(rows: seq<SelectorRow>) {
    forall i, j | 0 <= i < j < |rows| :: rows[i].edgeType != rows[j].edgeType || rows[i].ordinal != rows[j].ordinal
  }

  lemma RowBeforeIsStrictOrder()
    ensures StrictOrder(RowBefore)
  {
  }

  lemma {:induction false} FlattenedAreSorted(r: Relationships, n: nat)
    requires n <= 4
    ensures Sorted(RowBefore, FlattenUpTo(r, n))
    ensures forall row | row in FlattenUpTo(r, n) :: EdgeOrder(row.edgeType) < n
  {
    if n > 0 {
      FlattenedAreSorted(r, n - 1);
      var front, back := FlattenUpTo(r, n - 1), RowsFor(EDGE_TYPES[n - 1], r.Of(EDGE_TYPES[n - 1]));
      forall i, j | 0 <= i < |front| && 0 <= j < |back| ensures RowBefore(front[i], back[j]) {
        assert front[i] in front;
      }
    }
  }

  /** However the database returns the rows, sorting restores the order of publication. */
  lemma SortingRestoresPublication(r: Relationships, stored: seq<SelectorRow>)
    requires UniquePositions(stored) && Elements(stored) == Elements(Flatten(r))
    ensures SortRelationshipSelectors(stored) == Flatten(r)
  {
    RowBeforeIsStrictOrder();
    forall i, j | 0 <= i < j < |stored| ensures RowBefore(stored[i], stored[j]) || RowBefore(stored[j], stored[i]) {
      assert stored[i].edgeType != stored[j].edgeType ==>
        EdgeOrder(stored[i].edgeType) != EdgeOrder(stored[j].edgeType);
    }
    SortSorts(RowBefore, stored);
    SortKeepsElements(RowBefore, stored);
    FlattenedAreSorted(r, 4);
    SortedIsUnique(RowBefore, Sort(RowBefore, stored), Flatten(r));
  }

  /** Publish, store, read back in any order, resolve: the dependencies come out exactly as
      authored and in the authored order. */
  lemma ResolvedDependenciesAreAuthored(r: Relationships, stored: seq<SelectorRow>)
    requires UniquePositions(stored) && Elements(stored) == Elements(Flatten(r))
    ensures ResolvedDependencies(stored) == r.dependsOn
  {
    SortingRestoresPublication(r, stored);
    FlattenOfType(r, 4, DependsOn);
  }

  /** Flattening gives every row its own position, so the database accepts the rows of any publish. */
  lemma FlattenedPositionsAreUnique(r: Relationships)
    ensures UniquePositions(Flatten(r))
  {
    FlattenedAreSorted(r, 4);
    var rows := Flatten(r);
    forall i, j | 0 <= i < j < |rows|
      ensures rows[i].edgeType != rows[j].edgeType || rows[i].ordinal != rows[j].ordinal
    {
      assert RowBefore(rows[i], rows[j]);
    }
  }
}
