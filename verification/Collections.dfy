/** Small vocabulary shared by the registry model: optional columns, maxima of
    finite sets, and the cardinality of an injective image. */
module Collections {
  /** A nullable column or an optional argument. */
  datatype Option<+T> = None | Some(value: T)

  function Max(a: int, b: int): (m: int)
    ensures m == a || m == b
    ensures a <= m && b <= m
  {
    if a < b then b else a
  }

  lemma Member<T>(s: set<T>) returns (x: T)
    requires s != {}
    ensures x in s
  {
    x :| x in s;
  }

  lemma {:induction false} HasMax(s: set<int>)
    requires s != {}
    ensures exists m :: m in s && forall x | x in s :: x <= m
  {
    var x := Member(s);
    var rest := s - {x};
    assert s == rest + {x};
    if rest == {} {
      assert forall y | y in s :: y <= x;
    } else {
      HasMax(rest);
      var m :| m in rest && forall y | y in rest :: y <= m;
      var top := Max(x, m);
      assert top in s && forall y | y in s :: y <= top;
    }
  }

  /** SQL `MAX(...)` over a non-empty group. */
  function MaxOf(s: set<int>): (m: int)
    requires s != {}
    ensures m in s
    ensures forall x | x in s :: x <= m
  {
    HasMax(s);
    var m :| m in s && forall x | x in s :: x <= m;
    m
  }

  ghost predicate Distinct<T>(s: seq<T>) {
    forall i, j | 0 <= i < j < |s| :: s[i] != s[j]
  }

  ghost predicate InjectiveOn<A(!new), B>(f: A -> B, s: set<A>) {
    forall x, y | x in s && y in s && f(x) == f(y) :: x == y
  }

  ghost function ImageOf<A(!new), B>(f: A -> B, s: set<A>): set<B> {
    set x | x in s :: f(x)
  }

  lemma {:induction false} InjectiveImageSize<A(!new), B>(f: A -> B, s: set<A>)
    requires InjectiveOn(f, s)
    ensures |ImageOf(f, s)| == |s|
  {
    if s != {} {
      var x :| x in s;
      var rest := s - {x};
      InjectiveImageSize(f, rest);
      assert f(x) !in ImageOf(f, rest);
      assert ImageOf(f, s) == ImageOf(f, rest) + {f(x)};
    }
  }

  lemma SubsetSize<T>(a: set<T>, b: set<T>)
    requires a <= b
    ensures |a| <= |b|
  {
    assert b == a + (b - a);
    assert |b| == |a| + |b - a|;
  }
}
