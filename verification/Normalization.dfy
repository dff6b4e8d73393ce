/** Search text: white-space and case normalization, and the expansion of token aliases that is
    applied to documents and to queries. */
module Normalization {
  import opened Collections
  import opened GroupRanking

  predicate IsLower(u: Unicode, s: string) {
    forall i | 0 <= i < |s| :: u.settled(s[i])
  }

  /** What Python knows about characters: white space for `str.split`, `str.lower` of a whole text, and
      the characters that lower-casing keeps wherever they stand. */
  datatype Unicode = Unicode(isSpace: char -> bool, lower: string -> string, settled: char -> bool) {
    ghost predicate Valid() {
      && isSpace(' ') && settled(' ')
      && (forall c | c in "documentations" :: settled(c) && !isSpace(c))
      && (forall s :: IsLower(this, lower(s)))
      && (forall s | IsLower(this, s) :: lower(s) == s)
    }
  }

  predicate AsciiSpace(c: char) {
    c == ' ' || '\t' <= c <= '\r' || 28 as char <= c <= 31 as char
  }

  function LowerChar(c: char): char {
    if 'A' <= c <= 'Z' then c + 32 as char else c
  }

  function AsciiLower(s: string): string {
    seq(|s|, i requires 0 <= i < |s| => LowerChar(s[i]))
  }

  predicate AsciiSettled(c: char) {
    LowerChar(c) == c
  }

  const ASCII: Unicode := Unicode(AsciiSpace, AsciiLower, AsciiSettled)

  /** The part of it that concerns ASCII alone is one such table. */
  lemma AsciiIsValid()
    ensures ASCII.Valid()
  {
    forall s | IsLower(ASCII, s) ensures ASCII.lower(s) == s {
      assert forall i | 0 <= i < |s| :: ASCII.settled(s[i]);
    }
  }

  const SPACES: string := " \t\n\U{0B}\U{0C}\r\U{1C}\U{1D}\U{1E}\U{1F}"
  const CAPITALS: string := "ABCDEFGHIJKLMNOPQRSTUVWXYZ"
  const LETTERS: string := "abcdefghijklmnopqrstuvwxyz"

  /** The ten spaces of ASCII. */
  lemma AsciiSpaces(c: char)
    ensures AsciiSpace(c) <==> c in SPACES
  {
    if '\t' <= c <= '\r' {
      assert SPACES[c as int - 8] == c;
    } else if 28 as char <= c <= 31 as char {
      assert SPACES[c as int - 22] == c;
    } else if c == ' ' {
      assert SPACES[0] == c;
    }
  }

  /** Its twenty-six letters. */
  lemma AsciiLetters(c: char)
    ensures forall i | 0 <= i < 26 :: LowerChar(CAPITALS[i]) == LETTERS[i]
    ensures c !in CAPITALS ==> LowerChar(c) == c
  {
    if 'A' <= c <= 'Z' {
      assert CAPITALS[c as int - 65] == c;
    }
  }

  /** The longest prefix without white space. */
  function Word(u: Unicode, s: string): (w: string)
    ensures w <= s && forall i | 0 <= i < |w| :: !u.isSpace(w[i])
    ensures |w| < |s| ==> u.isSpace(s[|w|])
  {
    if s == [] || u.isSpace(s[0]) then [] else [s[0]] + Word(u, s[1..])
  }

  predicate Clean(u: Unicode, t: string) {
    t != [] && forall i | 0 <= i < |t| :: !u.isSpace(t[i])
  }

  /** `str.split()`. */
  function Tokens(u: Unicode, s: string): (r: seq<string>)
    ensures forall t | t in r :: Clean(u, t)
    decreases |s|
  {
    if s == [] then []
    else if u.isSpace(s[0]) then Tokens(u, s[1..])
    else [Word(u, s)] + Tokens(u, s[|Word(u, s)|..])
  }

  /** `" ".join(tokens)`. */
  function Join(tokens: seq<string>): string {
    if tokens == [] then []
    else if |tokens| == 1 then tokens[0]
    else tokens[0] + ([' '] + Join(tokens[1..]))
  }

  function NormalizeSearchText(u: Unicode, value: Option<string>): Option<string> {
    if value.None? then None
    else
      var normalized := u.lower(Join(Tokens(u, value.value)));
      if normalized == [] then None else Some(normalized)
  }

  function Aliases(token: string): seq<string> {
    if token == "doc" || token == "docs" then ["documentation"] else []
  }

  function WithAliases(tokens: seq<string>): seq<string> {
    if tokens == [] then []
    else
      var n := |tokens| - 1;
      WithAliases(tokens[..n]) + ([tokens[n]] + Aliases(tokens[n]))
  }

  function Token(t: string): string { t }

  /** Every token and its aliases, each once, in order of first appearance. */
  function ExpandTokens(tokens: seq<string>): seq<string> {
    FirstPerKey(Token, WithAliases(tokens))
  }

  function ExpandSearchAliases(u: Unicode, value: Option<string>): Option<string> {
    match NormalizeSearchText(u, value)
    case None => None
    case Some(normalized) =>
      var expanded := Join(ExpandTokens(Tokens(u, normalized)));
      if expanded == [] then None else Some(expanded)
  }

  function WithToken(before: seq<string>, t: string): seq<string> {
    before + if t in before then [] else [t]
  }

  lemma AppendToken(s: seq<string>, t: string)
    ensures FirstPerKey(Token, s + [t]) == WithToken(FirstPerKey(Token, s), t)
    ensures forall u :: u in FirstPerKey(Token, s) <==> u in s
  {
    FirstPerKeyGrows(Token, s, t);
    forall u ensures u in FirstPerKey(Token, s) <==> u in s {
      if u in s {
        var i :| 0 <= i < |s| && s[i] == u;
        var b := FirstOfKeyAt(Token, s, i);
      }
      FirstPerKeyMembers(Token, s);
    }
  }

  lemma AppendTokens(s: seq<string>, tail: seq<string>)
    requires |tail| <= 1
    ensures FirstPerKey(Token, s + tail) == FirstPerKey(Token, s) + if tail == [] || tail[0] in FirstPerKey(Token, s)
      then [] else tail
  {
    if tail == [] {
      assert s + tail == s;
    } else {
      assert tail == [tail[0]];
      AppendToken(s, tail[0]);
    }
  }

  /** A token and its alias join those seen before. */
  function Extended(before: seq<string>, t: string): seq<string> {
    var with := WithToken(before, t);
    with + if Aliases(t) == [] || Aliases(t)[0] in with then [] else Aliases(t)
  }

  /** Expanding one more token. */
  lemma ExpandOneMore(tokens: seq<string>, n: nat)
    requires n < |tokens|
    ensures ExpandTokens(tokens[..n + 1]) == Extended(ExpandTokens(tokens[..n]), tokens[n])
  {
    assert tokens[..n + 1][..n] == tokens[..n];
    var c, t := WithAliases(tokens[..n]), tokens[n];
    assert WithAliases(tokens[..n + 1]) == (c + [t]) + Aliases(t);
    AppendToken(c, t);
    AppendTokens(c + [t], Aliases(t));
  }

  /** The loops of the source: `seen` guards `expanded`. */
  method ExpandLoop(tokens: seq<string>) returns (expanded: seq<string>)
    ensures expanded == ExpandTokens(tokens)
  {
    expanded := [];
    var seen: set<string> := {};
    var i := 0;
    while i < |tokens|
      invariant 0 <= i <= |tokens|
      invariant expanded == ExpandTokens(tokens[..i])
      invariant forall t :: t in seen <==> t in expanded
    {
      ExpandOneMore(tokens, i);
      var candidates := [tokens[i]] + Aliases(tokens[i]);
      ghost var before := expanded;
      var j := 0;
      while j < |candidates|
        invariant 0 <= j <= |candidates|
        invariant forall t :: t in seen <==> t in expanded
        invariant j == 0 ==> expanded == before
        invariant j == 1 ==> expanded == before + if tokens[i] in before then [] else [tokens[i]]
        invariant j == 2 ==> expanded == ExpandTokens(tokens[..i + 1])
      {
        if candidates[j] !in seen {
          expanded := expanded + [candidates[j]];
          seen := seen + {candidates[j]};
        }
        j := j + 1;
      }
      i := i + 1;
    }
    assert tokens[..i] == tokens;
  }

  // --- Idempotence ---------------------------------------------------------------------------------

  /** The alias of a token stands before it or right after it. */
  ghost predicate Settled(r: seq<string>) {
    forall i, a | 0 <= i < |r| && a in Aliases(r[i]) :: a in r[..i + 1] || (i + 1 < |r| && r[i + 1] == a)
  }

  lemma ExtendSettled(r: seq<string>, t: string)
    requires Settled(r) && Distinct(r)
    ensures Settled(Extended(r, t)) && Distinct(Extended(r, t))
  {
    var with := r + if t in r then [] else [t];
    var all := with + if Aliases(t) == [] || Aliases(t)[0] in with then [] else Aliases(t);
    assert Aliases("documentation") == [] by { assert |"documentation"| != |"doc"| && |"documentation"| != |"docs"|; }
    forall i, a | 0 <= i < |all| && a in Aliases(all[i])
      ensures a in all[..i + 1] || (i + 1 < |all| && all[i + 1] == a)
    {
      if i < |r| {
        assert all[i] == r[i] && all[..i + 1] == r[..i + 1];
      } else {
        assert all[i] == t && i == |r|;
        if a in with { assert a in r; assert all[..i] == r; }
      }
    }
  }

  lemma NothingIsSettled()
    ensures ExpandTokens([]) == [] && Settled([]) && Distinct<string>([])
  {
  }

  lemma {:induction false} ExpansionIsSettled(tokens: seq<string>, n: nat)
    requires n <= |tokens|
    ensures Settled(ExpandTokens(tokens[..n])) && Distinct(ExpandTokens(tokens[..n]))
  {
    hide ExpandTokens, Settled, Distinct, Extended;
    if n == 0 {
      assert tokens[..0] == [];
      NothingIsSettled();
    } else {
      ExpansionIsSettled(tokens, n - 1);
      ExpandOneMore(tokens, n - 1);
      ExtendSettled(ExpandTokens(tokens[..n - 1]), tokens[n - 1]);
    }
  }

  /** Expanding a prefix of a settled list reproduces it, or it and the alias that comes next. */
  function Reached(r: seq<string>, n: nat): nat
    requires n <= |r|
  {
    if 0 < n < |r| && r[n] in Aliases(r[n - 1]) then n + 1 else n
  }

  lemma ReachedStep(r: seq<string>, n: nat)
    requires Settled(r) && Distinct(r) && n < |r|
    ensures r[..Reached(r, n + 1)] == Extended(r[..Reached(r, n)], r[n])
  {
    var t, m := r[n], Reached(r, n);
    assert r[..n + 1] == r[..n] + [t] && t !in r[..n];
    assert WithToken(r[..m], t) == r[..n + 1];
    if Aliases(t) != [] {
      var a := Aliases(t)[0];
      assert Aliases(t) == [a] && a in Aliases(t);
      if a in r[..n + 1] {
        var k :| 0 <= k < n + 1 && r[k] == a;
        assert n + 1 < |r| ==> r[n + 1] != a;
      } else {
        assert r[n + 1] == a && r[..n + 2] == r[..n + 1] + [a];
      }
    }
  }

  lemma {:induction false} SettledPrefix(r: seq<string>, n: nat)
    requires Settled(r) && Distinct(r) && n <= |r|
    ensures ExpandTokens(r[..n]) == r[..Reached(r, n)]
  {
    if n == 0 {
      NothingIsSettled();
    } else {
      SettledPrefix(r, n - 1);
      hide ExpandTokens, Settled, Distinct, Extended, Reached;
      ExpandOneMore(r, n - 1);
      ReachedStep(r, n - 1);
    }
  }

  /** On tokens: expanding twice is expanding once, and no token is repeated. */
  lemma ExpandTokensIsIdempotent(tokens: seq<string>)
    ensures ExpandTokens(ExpandTokens(tokens)) == ExpandTokens(tokens) && Distinct(ExpandTokens(tokens))
  {
    assert tokens[..|tokens|] == tokens;
    ExpansionIsSettled(tokens, |tokens|);
    var r := ExpandTokens(tokens);
    SettledPrefix(r, |r|);
    assert r[..|r|] == r;
  }

  // --- On text -----------------------------------------------------------------------------------------

  lemma WordOfClean(u: Unicode, w: string, rest: string)
    requires Clean(u, w) && (rest == [] || u.isSpace(rest[0]))
    ensures Word(u, w + rest) == w
  {
    if |w| == 1 {
      assert (w + rest)[1..] == rest;
    } else {
      WordOfClean(u, w[1..], rest);
      assert (w + rest)[1..] == w[1..] + rest;
    }
  }

  /** Splitting undoes joining. */
  lemma {:induction false} TokensOfJoin(u: Unicode, tokens: seq<string>)
    requires u.isSpace(' ') && forall t | t in tokens :: Clean(u, t)
    ensures Tokens(u, Join(tokens)) == tokens
  {
    if tokens == [] {
    } else if |tokens| == 1 {
      WordOfClean(u, tokens[0], []);
      assert tokens[0] + [] == tokens[0];
      assert tokens[0][|tokens[0]|..] == [];
    } else {
      var rest := [' '] + Join(tokens[1..]);
      TokensOfJoin(u, tokens[1..]);
      WordOfClean(u, tokens[0], rest);
      assert (tokens[0] + rest)[|tokens[0]|..] == rest && rest[1..] == Join(tokens[1..]);
      assert tokens == [tokens[0]] + tokens[1..];
    }
  }

  lemma {:induction false} TokensOfLower(u: Unicode, s: string)
    requires IsLower(u, s)
    ensures forall t | t in Tokens(u, s) :: IsLower(u, t)
    decreases |s|
  {
    if s != [] {
      if u.isSpace(s[0]) {
        TokensOfLower(u, s[1..]);
      } else {
        TokensOfLower(u, s[|Word(u, s)|..]);
      }
    }
  }

  lemma {:induction false} JoinOfLower(u: Unicode, tokens: seq<string>)
    requires u.settled(' ') && forall t | t in tokens :: IsLower(u, t)
    ensures IsLower(u, Join(tokens))
  {
    if tokens != [] {
      assert tokens[0] in tokens;
      JoinOfLower(u, tokens[1..]);
    }
  }

  lemma {:induction false} WithAliasesMembers(tokens: seq<string>, t: string)
    ensures t in WithAliases(tokens) <==> t in tokens || exists u | u in tokens :: t in Aliases(u)
  {
    if tokens != [] {
      var n := |tokens| - 1;
      var last := tokens[n];
      WithAliasesMembers(tokens[..n], t);
      hide Aliases;
      assert tokens == tokens[..n] + [last];
      assert t in WithAliases(tokens) <==> t in WithAliases(tokens[..n]) || t == last || t in Aliases(last);
    }
  }

  lemma ExpansionMembers(tokens: seq<string>, t: string)
    ensures t in ExpandTokens(tokens) <==> t in tokens || exists u | u in tokens :: t in Aliases(u)
  {
    hide Aliases;
    AppendToken(WithAliases(tokens), t);
    WithAliasesMembers(tokens, t);
  }

  /** A non-empty list of clean lower-case tokens survives joining and normalizing. */
  lemma NormalizeJoined(u: Unicode, tokens: seq<string>)
    requires u.Valid() && tokens != [] && forall t | t in tokens :: Clean(u, t) && IsLower(u, t)
    ensures NormalizeSearchText(u, Some(Join(tokens))) == Some(Join(tokens)) && Join(tokens) != []
  {
    TokensOfJoin(u, tokens);
    JoinOfLower(u, tokens);
    assert Tokens(u, []) == [];
  }

  /** What an expansion consists of. */
  lemma ExpandedText(u: Unicode, value: Option<string>) returns (tokens: seq<string>)
    requires u.Valid() && ExpandSearchAliases(u, value).Some?
    ensures ExpandSearchAliases(u, value) == Some(Join(ExpandTokens(tokens)))
    ensures ExpandTokens(tokens) != [] && forall t | t in ExpandTokens(tokens) :: Clean(u, t) && IsLower(u, t)
  {
    var normalized := NormalizeSearchText(u, value).value;
    tokens := Tokens(u, normalized);
    hide ExpandTokens, Clean, IsLower;
    TokensOfLower(u, normalized);
    forall t | t in ExpandTokens(tokens) ensures Clean(u, t) && IsLower(u, t) {
      ExpansionMembers(tokens, t);
    }
  }

  /** Expanding the aliases of a text that has been expanded changes nothing. */
  lemma ExpandIsIdempotent(u: Unicode, value: Option<string>)
    requires u.Valid()
    ensures ExpandSearchAliases(u, ExpandSearchAliases(u, value)) == ExpandSearchAliases(u, value)
  {
    if ExpandSearchAliases(u, value).Some? {
      hide ExpandTokens;
      var tokens := ExpandedText(u, value);
      var r := ExpandTokens(tokens);
      NormalizeJoined(u, r);
      TokensOfJoin(u, r);
      ExpandTokensIsIdempotent(tokens);
    }
  }

  // --- Matching -----------------------------------------------------------------------------------------

  function NonEmpty(u: Unicode, parts: seq<Option<string>>): seq<string> {
    if parts == [] then []
    else
      var expanded := ExpandSearchAliases(u, parts[0]);
      (if expanded.Some? then [expanded.value] else []) + NonEmpty(u, parts[1..])
  }

  /** The text indexed for a version: the expanded slug, name, description and tags, one after the
      other, without the empty ones. */
  function DocumentSource(u: Unicode, parts: seq<Option<string>>): string {
    Join(NonEmpty(u, parts))
  }

  ghost predicate AllIn(query: seq<string>, document: seq<string>) {
    forall t | t in query :: t in document
  }

  ghost predicate AliasClosed(document: seq<string>) {
    forall t, a | t in document && a in Aliases(t) :: a in document
  }

  lemma TokensAfterWord(u: Unicode, w: string, tail: string)
    requires Clean(u, w) && (tail == [] || u.isSpace(tail[0]))
    ensures Tokens(u, w + tail) == [w] + Tokens(u, tail)
  {
    WordOfClean(u, w, tail);
    assert (w + tail)[|w|..] == tail && (w + tail)[0] == w[0];
  }

  lemma TokensAfterSpace(u: Unicode, s: string)
    ensures s == [] ==> Tokens(u, s) == []
    ensures s != [] && u.isSpace(s[0]) ==> Tokens(u, s) == Tokens(u, s[1..])
  {
  }

  lemma FirstWord(u: Unicode, s: string)
    requires s != [] && !u.isSpace(s[0])
    ensures var w, rest := Word(u, s), s[|Word(u, s)|..];
      Clean(u, w) && s == w + rest && |rest| < |s| && (rest == [] || u.isSpace(rest[0]))
  {
    var w := Word(u, s);
    if |w| < |s| {
      assert s[|w|..][0] == s[|w|];
    }
  }

  lemma {:induction false} TokensOfConcat(u: Unicode, a: string, after: string)
    requires after == [] || u.isSpace(after[0])
    ensures Tokens(u, a + after) == Tokens(u, a) + Tokens(u, after)
    decreases |a|
  {
    hide Word, Clean, Tokens;
    TokensAfterSpace(u, a);
    TokensAfterSpace(u, a + after);
    if a == [] {
      assert a + after == after;
    } else if u.isSpace(a[0]) {
      TokensOfConcat(u, a[1..], after);
      assert (a + after)[0] == a[0] && (a + after)[1..] == a[1..] + after;
    } else {
      FirstWord(u, a);
      var w, rest := Word(u, a), a[|Word(u, a)|..];
      assert a + after == w + (rest + after);
      TokensAfterWord(u, w, rest);
      TokensAfterWord(u, w, rest + after);
      TokensOfConcat(u, rest, after);
      assert ([w] + Tokens(u, rest)) + Tokens(u, after) == [w] + (Tokens(u, rest) + Tokens(u, after));
    }
  }

  lemma ExpandedTextIsClosed(u: Unicode, value: Option<string>)
    requires u.Valid() && ExpandSearchAliases(u, value).Some?
    ensures AliasClosed(Tokens(u, ExpandSearchAliases(u, value).value))
  {
    var tokens := ExpandedText(u, value);
    TokensOfJoin(u, ExpandTokens(tokens));
    assert Aliases("documentation") == [] by { assert |"documentation"| != |"doc"| && |"documentation"| != |"docs"|; }
    forall t, a | t in ExpandTokens(tokens) && a in Aliases(t) ensures a in ExpandTokens(tokens) {
      ExpansionMembers(tokens, t);
      ExpansionMembers(tokens, a);
    }
  }

  lemma {:induction false} SourceIsClosed(u: Unicode, parts: seq<Option<string>>)
    requires u.Valid()
    ensures AliasClosed(Tokens(u, DocumentSource(u, parts)))
  {
    if parts != [] {
      SourceIsClosed(u, parts[1..]);
      var first, rest := ExpandSearchAliases(u, parts[0]), NonEmpty(u, parts[1..]);
      if first.Some? {
        ExpandedTextIsClosed(u, parts[0]);
        assert ([first.value] + rest)[1..] == rest;
        if rest != [] {
          var after := [' '] + Join(rest);
          TokensOfConcat(u, first.value, after);
          assert after[1..] == Join(rest);
        }
      } else {
        assert [] + rest == rest;
      }
    }
  }

  /** Requiring every token of the expanded query in a document's text is the same as requiring
      every token of the query as typed. */
  lemma ExpandedQueryMatchesAsRaw(u: Unicode, query: Option<string>, parts: seq<Option<string>>)
    requires u.Valid() && ExpandSearchAliases(u, query).Some?
    ensures NormalizeSearchText(u, query).Some?
    ensures AllIn(Tokens(u, ExpandSearchAliases(u, query).value), Tokens(u, DocumentSource(u, parts)))
      <==> AllIn(Tokens(u, NormalizeSearchText(u, query).value), Tokens(u, DocumentSource(u, parts)))
  {
    var raw, document := Tokens(u, NormalizeSearchText(u, query).value), Tokens(u, DocumentSource(u, parts));
    SourceIsClosed(u, parts);
    forall t ensures t in ExpandTokens(raw) <==> t in raw || exists u | u in raw :: t in Aliases(u) {
      ExpansionMembers(raw, t);
    }
    forall t | t in ExpandTokens(raw) ensures Clean(u, t) {
    }
    TokensOfJoin(u, ExpandTokens(raw));
  }

  ghost predicate HasWord(u: Unicode, value: Option<string>, word: string) {
    NormalizeSearchText(u, value).Some? && word in Tokens(u, NormalizeSearchText(u, value).value)
  }

  /** A word of the text, or the alias of one. */
  ghost predicate Gives(u: Unicode, value: Option<string>, word: string) {
    || HasWord(u, value, word)
    || (word == "documentation" && (HasWord(u, value, "doc") || HasWord(u, value, "docs")))
  }

  lemma AliasIs(token: string, word: string)
    ensures word in Aliases(token) <==> word == "documentation" && (token == "doc" || token == "docs")
  {
  }

  lemma ExpandedWordsIff(u: Unicode, value: Option<string>, word: string)
    requires u.Valid()
    ensures ExpandSearchAliases(u, value).Some? && word in Tokens(u, ExpandSearchAliases(u, value).value)
      <==> Gives(u, value, word)
  {
    if NormalizeSearchText(u, value).Some? {
      var raw := Tokens(u, NormalizeSearchText(u, value).value);
      ExpansionMembers(raw, word);
      AliasIs("doc", word);
      AliasIs("docs", word);
      forall t | t in raw ensures word in Aliases(t) <==> word == "documentation" && (t == "doc" || t == "docs") {
        AliasIs(t, word);
      }
      forall t | t in ExpandTokens(raw) ensures Clean(u, t) {
        ExpansionMembers(raw, t);
      }
      TokensOfJoin(u, ExpandTokens(raw));
      assert Tokens(u, []) == [];
    }
  }

  lemma SourceGrows(u: Unicode, parts: seq<Option<string>>, word: string)
    requires u.Valid() && parts != []
    ensures word in Tokens(u, DocumentSource(u, parts)) <==>
      || (ExpandSearchAliases(u, parts[0]).Some? && word in Tokens(u, ExpandSearchAliases(u, parts[0]).value))
      || word in Tokens(u, DocumentSource(u, parts[1..]))
  {
    hide ExpandSearchAliases, Word, Clean;
    var first, rest := ExpandSearchAliases(u, parts[0]), NonEmpty(u, parts[1..]);
    assert Tokens(u, []) == [];
    if first.Some? {
      assert ([first.value] + rest)[1..] == rest;
      if rest != [] {
        var after := [' '] + Join(rest);
        TokensOfConcat(u, first.value, after);
        assert after[1..] == Join(rest);
      }
    } else {
      assert [] + rest == rest;
    }
  }

  /** The indexed text has the words of every part and their aliases, and no others. */
  lemma {:induction false} SourceWordsIff(u: Unicode, parts: seq<Option<string>>, word: string)
    requires u.Valid()
    ensures word in Tokens(u, DocumentSource(u, parts)) <==> exists p | p in parts :: Gives(u, p, word)
  {
    if parts != [] {
      SourceWordsIff(u, parts[1..], word);
      ExpandedWordsIff(u, parts[0], word);
      SourceGrows(u, parts, word);
      hide Gives, DocumentSource, ExpandSearchAliases, Tokens;
      assert parts == [parts[0]] + parts[1..];
    }
  }
}
