/** The containment filter of lexical search: how `build_contains_pattern` escapes a
    search text, and what the resulting pattern means under the SQL LIKE predicate
    with a backslash escape (ISO/IEC 9075-2, section 8.5). */
module LikePattern {
  import opened Collections

  const ESCAPE: char := '\\'
  const ANY_RUN: char := '%'
  const ANY_CHAR: char := '_'

  /** `str.replace` of one character by a string. */
  function Replace(s: string, c: char, sub: string): string {
    if s == [] then []
    else (if s[0] == c then sub else [s[0]]) + Replace(s[1..], c, sub)
  }

  /** The three replacements, in the order the code performs them. */
  function EscapeInSequence(v: string): string {
    Replace(Replace(Replace(v, ESCAPE, [ESCAPE, ESCAPE]), ANY_RUN, [ESCAPE, ANY_RUN]), ANY_CHAR, [ESCAPE, ANY_CHAR])
  }

  function BuildContainsPattern(value: Option<string>): Option<string> {
    match value
    case None => None
    case Some(v) => Some([ANY_RUN] + EscapeInSequence(v) + [ANY_RUN])
  }

  predicate Special(c: char) {
    c == ESCAPE || c == ANY_RUN || c == ANY_CHAR
  }

  /** The standard allows the escape character only before a special character. */
  predicate WellFormed(p: string) {
    if p == [] then true
    else if p[0] == ESCAPE then |p| >= 2 && Special(p[1]) && WellFormed(p[2..])
    else WellFormed(p[1..])
  }

  /** `s LIKE p ESCAPE '\'`. */
  predicate Like(p: string, s: string)
    requires WellFormed(p)
    decreases |p|, |s|
  {
    if p == [] then s == []
    else if p[0] == ESCAPE then s != [] && s[0] == p[1] && Like(p[2..], s[1..])
    else if p[0] == ANY_RUN then exists k | 0 <= k <= |s| :: Like(p[1..], s[k..])
    else if p[0] == ANY_CHAR then s != [] && Like(p[1..], s[1..])
    else s != [] && s[0] == p[0] && Like(p[1..], s[1..])
  }

  ghost predicate Occurs(v: string, s: string, at: int) {
    0 <= at && at + |v| <= |s| && s[at..at + |v|] == v
  }

  function Underscores(n: nat): (p: string) {
    seq(n, _ => ANY_CHAR)
  }

  /** Unescaped underscores count characters. */
  lemma {:induction false} UnderscoresCount(n: nat, s: string)
    ensures WellFormed(Underscores(n)) && (Like(Underscores(n), s) <==> |s| == n)
  {
    if n > 0 {
      assert Underscores(n)[1..] == Underscores(n - 1);
      UnderscoresCount(n - 1, if s == [] then s else s[1..]);
    }
  }

  // --- Three passes are one pass -----------------------------------------------------------

  function EscapeChar(c: char): (e: string) {
    if Special(c) then [ESCAPE, c] else [c]
  }

  function Escape(v: string): string {
    if v == [] then [] else EscapeChar(v[0]) + Escape(v[1..])
  }

  lemma {:induction false} ReplaceOverConcat(a: string, b: string, c: char, sub: string)
    ensures Replace(a + b, c, sub) == Replace(a, c, sub) + Replace(b, c, sub)
  {
    if a == [] {
      assert a + b == b;
    } else {
      ReplaceOverConcat(a[1..], b, c, sub);
      assert (a + b)[1..] == a[1..] + b;
    }
  }

  lemma ReplaceOne(x: char, c: char, sub: string)
    ensures Replace([x], c, sub) == if x == c then sub else [x]
  {
    assert [x][1..] == [];
  }

  lemma ReplaceTwo(x: char, y: char, c: char, sub: string)
    ensures Replace([x, y], c, sub) == (if x == c then sub else [x]) + (if y == c then sub else [y])
  {
    assert [x, y] == [x] + [y];
    ReplaceOverConcat([x], [y], c, sub);
    ReplaceOne(x, c, sub);
    ReplaceOne(y, c, sub);
  }

  lemma EscapeInSequenceOfOne(x: char)
    ensures EscapeInSequence([x]) == EscapeChar(x)
  {
    ReplaceOne(x, ESCAPE, [ESCAPE, ESCAPE]);
    ReplaceOne(x, ANY_RUN, [ESCAPE, ANY_RUN]);
    ReplaceOne(x, ANY_CHAR, [ESCAPE, ANY_CHAR]);
    ReplaceTwo(ESCAPE, ESCAPE, ANY_RUN, [ESCAPE, ANY_RUN]);
    ReplaceTwo(ESCAPE, ESCAPE, ANY_CHAR, [ESCAPE, ANY_CHAR]);
    ReplaceTwo(ESCAPE, ANY_RUN, ANY_CHAR, [ESCAPE, ANY_CHAR]);
  }

  /** Escaping backslashes first makes the three passes equal to one pass over the characters. */
  lemma {:induction false} SequentialEscapeIsOnePass(v: string)
    ensures EscapeInSequence(v) == Escape(v)
  {
    if v != [] {
      var head, tail := v[..1], v[1..];
      assert v == head + tail && head == [v[0]];
      SequentialEscapeIsOnePass(tail);
      EscapeInSequenceOfOne(v[0]);
      var h1, t1 := Replace(head, ESCAPE, [ESCAPE, ESCAPE]), Replace(tail, ESCAPE, [ESCAPE, ESCAPE]);
      ReplaceOverConcat(head, tail, ESCAPE, [ESCAPE, ESCAPE]);
      ReplaceOverConcat(h1, t1, ANY_RUN, [ESCAPE, ANY_RUN]);
      ReplaceOverConcat(Replace(h1, ANY_RUN, [ESCAPE, ANY_RUN]), Replace(t1, ANY_RUN, [ESCAPE, ANY_RUN]), ANY_CHAR,
        [ESCAPE, ANY_CHAR]);
    }
  }

  // --- The pattern means containment -------------------------------------------------------

  lemma {:induction false} EscapedIsWellFormed(v: string, rest: string)
    requires WellFormed(rest)
    ensures WellFormed(Escape(v) + rest)
  {
    if v == [] {
      assert Escape(v) + rest == rest;
    } else {
      EscapedIsWellFormed(v[1..], rest);
      var e := EscapeChar(v[0]);
      assert Escape(v) + rest == e + (Escape(v[1..]) + rest);
      assert (e + (Escape(v[1..]) + rest))[|e|..] == Escape(v[1..]) + rest;
    }
  }

  /** An escaped text followed by a lone percent sign matches exactly the strings that start with it. */
  lemma {:induction false} EscapedPrefix(v: string, s: string)
    ensures WellFormed(Escape(v) + [ANY_RUN])
    ensures Like(Escape(v) + [ANY_RUN], s) <==> v <= s
  {
    EscapedIsWellFormed(v, [ANY_RUN]);
    if v == [] {
      assert Escape(v) + [ANY_RUN] == [ANY_RUN];
      assert [ANY_RUN][1..] == [];
      assert s[|s|..] == [];
      assert Like([ANY_RUN][1..], s[|s|..]);
    } else {
      var e, rest := EscapeChar(v[0]), Escape(v[1..]) + [ANY_RUN];
      assert Escape(v) + [ANY_RUN] == e + rest;
      assert (e + rest)[|e|..] == rest;
      assert v == [v[0]] + v[1..];
      if s != [] {
        EscapedPrefix(v[1..], s[1..]);
        assert s == [s[0]] + s[1..];
        assert v <= s <==> v[0] == s[0] && v[1..] <= s[1..];
      }
    }
  }

  /** The search text is matched literally: the pattern accepts a stored string exactly when
      the text occurs in it, whatever wildcards or backslashes the text contains. */
  lemma ContainsPatternMeansOccurs(v: string, s: string)
    ensures var p := BuildContainsPattern(Some(v)).value;
      && WellFormed(p)
      && (Like(p, s) <==> exists at :: Occurs(v, s, at))
  {
    SequentialEscapeIsOnePass(v);
    var p := BuildContainsPattern(Some(v)).value;
    var tail := Escape(v) + [ANY_RUN];
    assert p == [ANY_RUN] + tail && p[1..] == tail;
    EscapedIsWellFormed(v, [ANY_RUN]);
    forall k | 0 <= k <= |s| ensures Like(tail, s[k..]) <==> Occurs(v, s, k) {
      EscapedPrefix(v, s[k..]);
      if k + |v| <= |s| { assert s[k..][..|v|] == s[k..k + |v|]; }
    }
  }
}
