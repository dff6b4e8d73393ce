/** Sorting by a strict order, and the fact the ranking proofs rest on: a set of
    rows that the order separates has exactly one sorted arrangement. */
module Orders {
  ghost predicate StrictOrder<T(!new)>(before: (T, T) -> bool) {
    && (forall x :: !before(x, x))
    && (forall x, y, z :: before(x, y) && before(y, z) ==> before(x, z))
  }

  /** Any two positions of `s` are separated by the order; in particular `s` has no repetition. */
  ghost predicate Separates<T(!new)>(before: (T, T) -> bool, s: seq<T>) {
    forall i, j | 0 <= i < j < |s| :: before(s[i], s[j]) || before(s[j], s[i])
  }

  ghost predicate Sorted<T(!new)>(before: (T, T) -> bool, s: seq<T>) {
    forall i, j | 0 <= i < j < |s| :: before(s[i], s[j])
  }

  ghost function Elements<T>(s: seq<T>): set<T> {
    set x | x in s
  }

  function Insert<T>(before: (T, T) -> bool, x: T, s: seq<T>): (r: seq<T>)
    ensures |r| == |s| + 1
  {
    if s == [] then [x]
    else if before(x, s[0]) then [x] + s
    else [s[0]] + Insert(before, x, s[1..])
  }

  /** `ORDER BY` of SQL and `sorted(...)` of Python. */
  function Sort<T>(before: (T, T) -> bool, s: seq<T>): (r: seq<T>)
    ensures |r| == |s|
  {
    if s == [] then [] else Insert(before, s[0], Sort(before, s[1..]))
  }

  lemma {:induction false} InsertKeepsElements<T(!new)>(before: (T, T) -> bool, x: T, s: seq<T>)
    ensures multiset(Insert(before, x, s)) == multiset{x} + multiset(s)
  {
    if s == [] {
    } else if before(x, s[0]) {
      assert multiset([x] + s) == multiset{x} + multiset(s);
    } else {
      InsertKeepsElements(before, x, s[1..]);
      assert s == [s[0]] + s[1..];
    }
  }

  lemma SameMultisetSameElements<T>(s: seq<T>, t: seq<T>)
    requires multiset(s) == multiset(t)
    ensures Elements(s) == Elements(t)
    ensures |s| == |t|
  {
    assert forall x :: x in s <==> x in multiset(s);
    assert forall x :: x in t <==> x in multiset(t);
    assert |s| == |multiset(s)| == |multiset(t)| == |t|;
  }

  lemma {:induction false} SortKeepsElements<T(!new)>(before: (T, T) -> bool, s: seq<T>)
    ensures multiset(Sort(before, s)) == multiset(s)
    ensures Elements(Sort(before, s)) == Elements(s)
  {
    if s != [] {
      SortKeepsElements(before, s[1..]);
      InsertKeepsElements(before, s[0], Sort(before, s[1..]));
      assert s == [s[0]] + s[1..];
    }
    SameMultisetSameElements(Sort(before, s), s);
  }

  lemma {:induction false} InsertSorts<T(!new)>(before: (T, T) -> bool, x: T, s: seq<T>)
    requires StrictOrder(before) && Sorted(before, s)
    requires forall i | 0 <= i < |s| :: before(x, s[i]) || before(s[i], x)
    ensures Sorted(before, Insert(before, x, s))
  {
    if s == [] {
    } else if before(x, s[0]) {
    } else {
      InsertSorts(before, x, s[1..]);
      var tail := Insert(before, x, s[1..]);
      InsertKeepsElements(before, x, s[1..]);
      forall i | 0 <= i < |tail| ensures before(s[0], tail[i]) {
        assert tail[i] in multiset(tail);
        assert tail[i] == x || tail[i] in s[1..];
      }
    }
  }

  lemma {:induction false} SortSorts<T(!new)>(before: (T, T) -> bool, s: seq<T>)
    requires StrictOrder(before) && Separates(before, s)
    ensures Sorted(before, Sort(before, s))
  {
    if s != [] {
      SortSorts(before, s[1..]);
      SortKeepsElements(before, s[1..]);
      var tail := Sort(before, s[1..]);
      forall i | 0 <= i < |tail| ensures before(s[0], tail[i]) || before(tail[i], s[0]) {
        assert tail[i] in Elements(tail);
        assert tail[i] in s[1..];
      }
      InsertSorts(before, s[0], tail);
    }
  }

  lemma NoElements<T>(s: seq<T>)
    ensures Elements(s) == {} <==> s == []
  {
    if s != [] { assert s[0] in Elements(s); }
  }

  /** A sorted arrangement is determined by its set of elements. */
  lemma {:induction false} SortedIsUnique<T(!new)>(before: (T, T) -> bool, s: seq<T>, t: seq<T>)
    requires StrictOrder(before) && Sorted(before, s) && Sorted(before, t)
    requires Elements(s) == Elements(t)
    ensures s == t
  {
    NoElements(s);
    NoElements(t);
    if s != [] {
      assert s[0] in Elements(t);
      assert t[0] in Elements(s);
      assert s[0] == t[0];
      forall x ensures x in s[1..] <==> x in t[1..] {
        assert x in Elements(s) <==> x in Elements(t);
        assert s == [s[0]] + s[1..];
        assert t == [t[0]] + t[1..];
      }
      SortedIsUnique(before, s[1..], t[1..]);
      assert s == [s[0]] + s[1..];
      assert t == [t[0]] + t[1..];
    }
  }

  /** Sorting forgets the order in which the rows arrived. */
  lemma SortIgnoresArrival<T(!new)>(before: (T, T) -> bool, s: seq<T>, t: seq<T>)
    requires StrictOrder(before) && Separates(before, s) && Separates(before, t)
    requires Elements(s) == Elements(t)
    ensures Sort(before, s) == Sort(before, t)
  {
    SortSorts(before, s);
    SortSorts(before, t);
    SortKeepsElements(before, s);
    SortKeepsElements(before, t);
    SortedIsUnique(before, Sort(before, s), Sort(before, t));
  }

  /** In a sorted sequence the order of two rows is the order of their positions. */
  lemma PositionsFollowOrder<T(!new)>(before: (T, T) -> bool, s: seq<T>, i: nat, j: nat)
    requires StrictOrder(before) && Sorted(before, s)
    requires i < |s| && j < |s| && before(s[i], s[j])
    ensures i < j
  {
    assert i != j;
  }

  // --- Sorting a set ---------------------------------------------------------------------------

  ghost predicate SeparatesSet<T(!new)>(before: (T, T) -> bool, s: set<T>) {
    forall x, y | x in s && y in s && x != y :: before(x, y) || before(y, x)
  }

  lemma {:induction false} HasLeast<T(!new)>(before: (T, T) -> bool, s: set<T>)
    requires StrictOrder(before) && SeparatesSet(before, s) && s != {}
    ensures exists l :: l in s && forall x | x in s && x != l :: before(l, x)
  {
    var e :| e in s;
    var rest := s - {e};
    if rest == {} {
      assert s == {e};
    } else {
      HasLeast(before, rest);
      var l :| l in rest && forall x | x in rest && x != l :: before(l, x);
      var least := if before(e, l) then e else l;
      forall x | x in s && x != least ensures before(least, x) {
        assert x == e || x == l || before(l, x);
      }
    }
  }

  function Least<T(!new, ==)>(before: (T, T) -> bool, s: set<T>): (l: T)
    requires StrictOrder(before) && SeparatesSet(before, s) && s != {}
    ensures l in s && forall x | x in s && x != l :: before(l, x)
  {
    HasLeast(before, s);
    var l :| l in s && forall x | x in s && x != l :: before(l, x);
    l
  }

  /** The elements of a set in ascending order. */
  function SortSet<T(!new, ==)>(before: (T, T) -> bool, s: set<T>): (r: seq<T>)
    requires StrictOrder(before) && SeparatesSet(before, s)
    ensures Elements(r) == s && |r| == |s|
    ensures forall x :: x in r <==> x in s
    ensures Sorted(before, r)
  {
    if s == {} then []
    else
      var l := Least(before, s);
      var rest := SortSet(before, s - {l});
      assert forall x :: x in [l] + rest <==> x == l || x in rest;
      [l] + rest
  }
}
