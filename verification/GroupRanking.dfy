/** Best row of each group, two ways: ROW_NUMBER inside every group followed by a sort of the
    winners, and a sort of all rows followed by keeping the first row of each group. */
module GroupRanking {
  import opened Orders

  /** ROW_NUMBER() OVER (PARTITION BY key ORDER BY ...). */
  function RowNumber<T(==), K(==)>(before: (T, T) -> bool, key: T -> K, rows: seq<T>, c: T): nat {
    1 + |set r | r in rows && key(r) == key(c) && before(r, c)|
  }

  function Winners<T(==), K(==)>(before: (T, T) -> bool, key: T -> K, rows: seq<T>, all: seq<T>): seq<T> {
    if rows == [] then []
    else
      (if RowNumber(before, key, all, rows[0]) == 1 then [rows[0]] else []) + Winners(before, key, rows[1..], all)
  }

  function FirstPerKey<T, K(==)>(key: T -> K, rows: seq<T>): seq<T> {
    if rows == [] then []
    else
      var last, earlier := rows[|rows| - 1], rows[..|rows| - 1];
      FirstPerKey(key, earlier) + (if exists i | 0 <= i < |earlier| :: key(earlier[i]) == key(last) then [] else [last])
  }

  function Take<T>(s: seq<T>, limit: nat): (r: seq<T>)
    ensures r <= s && |r| <= limit
    ensures |r| < |s| ==> |r| == limit
  {
    if |s| <= limit then s else s[..limit]
  }

  ghost predicate IsBest<T, K>(before: (T, T) -> bool, key: T -> K, rows: seq<T>, c: T) {
    c in rows && forall r | r in rows && key(r) == key(c) :: !before(r, c)
  }

  ghost predicate DistinctKeys<T, K>(key: T -> K, rows: seq<T>) {
    forall i, j | 0 <= i < j < |rows| :: key(rows[i]) != key(rows[j])
  }

  lemma WinnerIsBest<T, K>(before: (T, T) -> bool, key: T -> K, all: seq<T>, c: T)
    requires c in all
    ensures RowNumber(before, key, all, c) == 1 <==> IsBest(before, key, all, c)
  {
    var better := set r | r in all && key(r) == key(c) && before(r, c);
    assert forall r | r in all && key(r) == key(c) && before(r, c) :: r in better;
    if better != {} {
      var r :| r in better;
    }
  }

  lemma {:induction false} WinnersAreBest<T, K>(before: (T, T) -> bool, key: T -> K, rows: seq<T>, all: seq<T>)
    requires forall r | r in rows :: r in all
    ensures forall c :: c in Winners(before, key, rows, all) <==> c in rows && IsBest(before, key, all, c)
  {
    if rows != [] {
      WinnersAreBest(before, key, rows[1..], all);
      WinnerIsBest(before, key, all, rows[0]);
      assert rows == [rows[0]] + rows[1..];
    }
  }

  lemma {:induction false} WinnersSeparated<T(!new), K>(before: (T, T) -> bool, key: T -> K, rows: seq<T>, all: seq<T>)
    requires Separates(before, rows)
    ensures Separates(before, Winners(before, key, rows, all))
    ensures forall c | c in Winners(before, key, rows, all) :: c in rows
  {
    if rows != [] {
      WinnersSeparated(before, key, rows[1..], all);
      var rest := Winners(before, key, rows[1..], all);
      forall i | 0 <= i < |rest| ensures before(rest[i], rows[0]) || before(rows[0], rest[i]) {
        assert rest[i] in rows[1..];
      }
    }
  }

  lemma FirstPerKeyGrows<T, K>(key: T -> K, rows: seq<T>, last: T)
    ensures FirstPerKey(key, rows + [last])
      == FirstPerKey(key, rows) + if exists i | 0 <= i < |rows| :: key(rows[i]) == key(last) then [] else [last]
  {
    assert (rows + [last])[..|rows|] == rows;
  }

  ghost predicate FirstAt<T, K>(key: T -> K, rows: seq<T>, i: nat)
    requires i < |rows|
  {
    forall j | 0 <= j < i :: key(rows[j]) != key(rows[i])
  }

  lemma FirstAtPrefix<T, K>(key: T -> K, rows: seq<T>, i: nat, n: nat)
    requires i < n <= |rows|
    ensures FirstAt(key, rows, i) <==> FirstAt(key, rows[..n], i)
  {
    assert forall j | 0 <= j <= i :: rows[j] == rows[..n][j];
  }

  lemma {:induction false} KeptIsFirst<T, K>(key: T -> K, rows: seq<T>, c: T) returns (i: nat)
    requires c in FirstPerKey(key, rows)
    ensures i < |rows| && rows[i] == c && FirstAt(key, rows, i)
  {
    var n := |rows| - 1;
    if c in FirstPerKey(key, rows[..n]) {
      i := KeptIsFirst(key, rows[..n], c);
      FirstAtPrefix(key, rows, i, n);
    } else {
      i := n;
      assert forall j | 0 <= j < n :: rows[j] == rows[..n][j];
    }
  }

  lemma {:induction false} FirstIsKept<T, K>(key: T -> K, rows: seq<T>, i: nat)
    requires i < |rows| && FirstAt(key, rows, i)
    ensures rows[i] in FirstPerKey(key, rows)
  {
    var n := |rows| - 1;
    if i < n {
      FirstAtPrefix(key, rows, i, n);
      FirstIsKept(key, rows[..n], i);
    } else {
      assert forall j | 0 <= j < n :: rows[j] == rows[..n][j];
    }
  }

  lemma {:induction false} FirstPerKeyDistinct<T, K>(key: T -> K, rows: seq<T>)
    ensures DistinctKeys(key, FirstPerKey(key, rows))
  {
    if rows != [] {
      var n := |rows| - 1;
      FirstPerKeyDistinct(key, rows[..n]);
      var kept := FirstPerKey(key, rows[..n]);
      if FirstPerKey(key, rows) != kept {
        forall i | 0 <= i < |kept| ensures key(kept[i]) != key(rows[n]) {
          var j := KeptIsFirst(key, rows[..n], kept[i]);
        }
      }
    }
  }

  lemma FirstPerKeyMembers<T, K>(key: T -> K, rows: seq<T>)
    ensures DistinctKeys(key, FirstPerKey(key, rows))
    ensures forall c | c in FirstPerKey(key, rows) ::
      exists i | 0 <= i < |rows| :: rows[i] == c && FirstAt(key, rows, i)
    ensures forall i | 0 <= i < |rows| && FirstAt(key, rows, i) :: rows[i] in FirstPerKey(key, rows)
  {
    FirstPerKeyDistinct(key, rows);
    forall c | c in FirstPerKey(key, rows) ensures exists i | 0 <= i < |rows| :: rows[i] == c && FirstAt(key, rows, i) {
      var i := KeptIsFirst(key, rows, c);
    }
    forall i | 0 <= i < |rows| && FirstAt(key, rows, i) ensures rows[i] in FirstPerKey(key, rows) {
      FirstIsKept(key, rows, i);
    }
  }

  lemma {:induction false} FirstPerKeySorted<T(!new), K>(before: (T, T) -> bool, key: T -> K, rows: seq<T>)
    requires Sorted(before, rows)
    ensures Sorted(before, FirstPerKey(key, rows))
  {
    if rows != [] {
      var n := |rows| - 1;
      FirstPerKeySorted(before, key, rows[..n]);
      FirstPerKeyMembers(key, rows[..n]);
      var kept := FirstPerKey(key, rows[..n]);
      forall i | 0 <= i < |kept| ensures before(kept[i], rows[n]) {
        assert kept[i] in kept;
        var j :| 0 <= j < n && rows[j] == kept[i];
      }
    }
  }

  lemma FirstOfKeyIsBest<T(!new), K>(before: (T, T) -> bool, key: T -> K, rows: seq<T>, sorted: seq<T>)
    requires StrictOrder(before) && Sorted(before, sorted) && Elements(sorted) == Elements(rows)
    ensures forall c :: c in FirstPerKey(key, sorted) <==> IsBest(before, key, rows, c)
  {
    FirstPerKeyMembers(key, sorted);
    assert forall c :: c in Elements(sorted) <==> c in sorted;
    assert forall c :: c in Elements(rows) <==> c in rows;
    forall c | c in sorted ensures c in FirstPerKey(key, sorted) <==> IsBest(before, key, rows, c) {
      var i :| 0 <= i < |sorted| && sorted[i] == c;
      assert forall k | 0 <= k < |sorted| && sorted[k] == c :: k == i;
      if IsBest(before, key, rows, c) {
        forall j | 0 <= j < i ensures key(sorted[j]) != key(c) {
          assert sorted[j] in rows;
          assert before(sorted[j], c);
        }
        assert FirstAt(key, sorted, i);
      } else {
        var r :| r in rows && key(r) == key(c) && before(r, c);
        assert r in sorted;
        var j :| 0 <= j < |sorted| && sorted[j] == r;
        assert j < i;
        assert !FirstAt(key, sorted, i);
      }
    }
  }

  /** The two readings agree, whatever order the rows arrive in. */
  lemma WinnersSortedAreFirstPerKey<T(!new), K>(before: (T, T) -> bool, key: T -> K, rows: seq<T>)
    requires StrictOrder(before) && Separates(before, rows)
    ensures Sort(before, Winners(before, key, rows, rows)) == FirstPerKey(key, Sort(before, rows))
  {
    SortSorts(before, rows);
    SortKeepsElements(before, rows);
    var sorted, winners := Sort(before, rows), Winners(before, key, rows, rows);
    FirstOfKeyIsBest(before, key, rows, sorted);
    FirstPerKeySorted(before, key, sorted);
    WinnersAreBest(before, key, rows, rows);
    WinnersSeparated(before, key, rows, rows);
    SortSorts(before, winners);
    SortKeepsElements(before, winners);
    assert Elements(winners) == Elements(FirstPerKey(key, sorted));
    SortedIsUnique(before, Sort(before, winners), FirstPerKey(key, sorted));
  }

  lemma FirstOfKeyAt<T, K>(key: T -> K, rows: seq<T>, i: nat) returns (b: nat)
    requires i < |rows|
    ensures b <= i && key(rows[b]) == key(rows[i])
    ensures forall j | 0 <= j < b :: key(rows[j]) != key(rows[b])
  {
    b := 0;
    while key(rows[b]) != key(rows[i])
      invariant b <= i
      invariant forall j | 0 <= j < b :: key(rows[j]) != key(rows[i])
      decreases i - b
    {
      b := b + 1;
    }
  }

  /** A row whose group did not make the cut comes after every row that did. */
  lemma CutKeepsTheBest<T(!new), K>(before: (T, T) -> bool, key: T -> K, sorted: seq<T>, limit: nat, omitted: T)
    requires StrictOrder(before) && Sorted(before, sorted) && omitted in sorted
    requires forall c | c in Take(FirstPerKey(key, sorted), limit) :: key(c) != key(omitted)
    ensures |Take(FirstPerKey(key, sorted), limit)| == limit
    ensures forall c | c in Take(FirstPerKey(key, sorted), limit) :: before(c, omitted)
  {
    var all := FirstPerKey(key, sorted);
    var page := Take(all, limit);
    FirstPerKeySorted(before, key, sorted);
    FirstPerKeyMembers(key, sorted);
    var i :| 0 <= i < |sorted| && sorted[i] == omitted;
    var b := FirstOfKeyAt(key, sorted, i);
    var best := sorted[b];
    assert best in all;
    var k :| 0 <= k < |all| && all[k] == best;
    assert forall j | 0 <= j < |page| :: page[j] in page && all[j] == page[j];
    assert k >= |page|;
    forall c | c in page ensures before(c, omitted) {
      var j :| 0 <= j < |page| && page[j] == c;
      assert before(all[j], all[k]);
    }
  }

  // --- Positions -------------------------------------------------------------------------------

  ghost function Prefix<T>(sorted: seq<T>, n: nat): set<T>
    requires n <= |sorted|
  {
    set k | 0 <= k < n :: sorted[k]
  }

  lemma NoPrefix<T>(sorted: seq<T>)
    ensures Prefix(sorted, 0) == {}
  {
  }

  lemma NextIsNew<T(!new)>(before: (T, T) -> bool, sorted: seq<T>, n: nat)
    requires StrictOrder(before) && Sorted(before, sorted) && n < |sorted|
    ensures Prefix(sorted, n + 1) == Prefix(sorted, n) + {sorted[n]} && sorted[n] !in Prefix(sorted, n)
  {
    forall k | 0 <= k < n ensures sorted[k] != sorted[n] {
      assert before(sorted[k], sorted[n]);
    }
  }

  lemma {:induction false} SortedPrefixSize<T(!new)>(before: (T, T) -> bool, sorted: seq<T>, n: nat)
    requires StrictOrder(before) && Sorted(before, sorted) && n <= |sorted|
    ensures |Prefix(sorted, n)| == n
  {
    NoPrefix(sorted);
    hide Prefix, StrictOrder, Sorted;
    if n > 0 {
      SortedPrefixSize(before, sorted, n - 1);
      NextIsNew(before, sorted, n - 1);
    }
  }

  ghost function Preceding<T>(before: (T, T) -> bool, rows: seq<T>, c: T): set<T> {
    set r | r in rows && before(r, c)
  }

  /** The best rows of other groups that come before c. */
  ghost function BestAhead<T, K>(before: (T, T) -> bool, key: T -> K, rows: seq<T>, c: T): set<T> {
    set b | b in rows && IsBest(before, key, rows, b) && before(b, c)
  }

  /** An element of a sorted list makes the cut exactly when fewer than `limit` elements precede it. */
  lemma InTakeIff<T(!new)>(before: (T, T) -> bool, sorted: seq<T>, limit: nat, c: T)
    requires StrictOrder(before) && Sorted(before, sorted) && c in sorted
    ensures c in Take(sorted, limit) <==> |Preceding(before, sorted, c)| < limit
  {
    var i :| 0 <= i < |sorted| && sorted[i] == c;
    SortedPrefixSize(before, sorted, i);
    assert Preceding(before, sorted, c) == Prefix(sorted, i) by {
      forall r | r in sorted && before(r, c) ensures exists k | 0 <= k < i :: sorted[k] == r {
        var k :| 0 <= k < |sorted| && sorted[k] == r;
        assert k > i ==> before(c, r);
      }
    }
    var page := Take(sorted, limit);
    assert i < |page| ==> page[i] == c && page[i] in page;
    if c in page {
      var k :| 0 <= k < |page| && page[k] == c;
      assert sorted[k] == c;
    }
  }

  /** Every row has the best row of its group at or before it. */
  lemma BestOfGroup<T(!new), K>(before: (T, T) -> bool, key: T -> K, rows: seq<T>, o: T) returns (b: T)
    requires StrictOrder(before) && Separates(before, rows) && o in rows
    ensures IsBest(before, key, rows, b) && key(b) == key(o) && (b == o || before(b, o))
  {
    SortSorts(before, rows);
    SortKeepsElements(before, rows);
    var sorted := Sort(before, rows);
    FirstOfKeyIsBest(before, key, rows, sorted);
    assert o in Elements(sorted);
    var i :| 0 <= i < |sorted| && sorted[i] == o;
    var j := FirstOfKeyAt(key, sorted, i);
    FirstPerKeyMembers(key, sorted);
    assert FirstAt(key, sorted, j);
    b := sorted[j];
  }

  /** The best row of a group makes the cut exactly when fewer best rows than the limit precede it. */
  lemma BestMakesTheCutIff<T(!new), K>(before: (T, T) -> bool, key: T -> K, rows: seq<T>, limit: nat, best: T)
    requires StrictOrder(before) && Separates(before, rows) && IsBest(before, key, rows, best)
    ensures best in Take(Sort(before, Winners(before, key, rows, rows)), limit)
      <==> |BestAhead(before, key, rows, best)| < limit
  {
    SortSorts(before, rows);
    SortKeepsElements(before, rows);
    var sorted := Sort(before, rows);
    WinnersSortedAreFirstPerKey(before, key, rows);
    FirstOfKeyIsBest(before, key, rows, sorted);
    FirstPerKeySorted(before, key, sorted);
    var firsts := FirstPerKey(key, sorted);
    InTakeIff(before, firsts, limit, best);
    assert Preceding(before, firsts, best) == BestAhead(before, key, rows, best);
  }
}
