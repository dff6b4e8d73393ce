/** Alias expansion meets the lexical query: which rows a query loses because it is expanded. */
module QueryExpansion {
  import opened Collections
  import opened Normalization
  import LikePattern
  import SearchRanking

  // --- The text-search query ------------------------------------------------------------------------------

  /** The lexemes that the text-search parser and the `simple` dictionary make of one word; a word
      such as "doc-string" gives its parts beside itself. */
  type Lexer = string -> set<string>

  ghost function Lexemes(lex: Lexer, words: seq<string>): set<string> {
    set w, l | w in words && l in lex(w) :: l
  }

  /** `search_vector @@ plainto_tsquery(...)`: all lexemes of the query, of which there must be some. */
  ghost predicate Hits(lex: Lexer, query: seq<string>, document: seq<string>) {
    {} < Lexemes(lex, query) <= Lexemes(lex, document)
  }

  /** A document that contains the lexemes of a word contains those of its alias. */
  ghost predicate LexemesClosed(lex: Lexer, document: seq<string>) {
    forall t, a | a in Aliases(t) && lex(t) <= Lexemes(lex, document) :: lex(a) <= Lexemes(lex, document)
  }

  lemma OneWordLexemes(lex: Lexer, t: string, words: seq<string>)
    requires words != [] && forall w | w in words :: w == t
    ensures Lexemes(lex, words) == lex(t)
  {
    assert words[0] in words;
  }

  lemma LexemesOfExpansion(lex: Lexer, raw: seq<string>, l: string)
    ensures l in Lexemes(lex, ExpandTokens(raw)) <==>
      l in Lexemes(lex, raw) || exists t, a | t in raw && a in Aliases(t) :: l in lex(a)
  {
    hide ExpandTokens, Aliases;
    forall w ensures w in ExpandTokens(raw) <==> w in raw || exists t | t in raw :: w in Aliases(t) {
      ExpansionMembers(raw, w);
    }
  }

  lemma WordLexemes(lex: Lexer, words: seq<string>)
    ensures forall w | w in words :: lex(w) <= Lexemes(lex, words)
  {
  }

  /** The expanded query hits exactly when the typed one does and no alias of its words is missing. */
  lemma HitsOfExpansion(lex: Lexer, raw: seq<string>, document: seq<string>)
    requires lex("doc") != {} && lex("docs") != {}
    ensures Hits(lex, ExpandTokens(raw), document) <==>
      Hits(lex, raw, document) && forall t, a | t in raw && a in Aliases(t) :: lex(a) <= Lexemes(lex, document)
  {
    forall l ensures l in Lexemes(lex, ExpandTokens(raw)) <==>
        l in Lexemes(lex, raw) || exists t, a | t in raw && a in Aliases(t) :: l in lex(a) {
      LexemesOfExpansion(lex, raw, l);
    }
    WordLexemes(lex, raw);
    if Lexemes(lex, raw) == {} {
      forall t | t in raw ensures Aliases(t) == [] {
        assert lex(t) == {};
      }
    }
  }

  lemma DocumentationIsClean(u: Unicode)
    requires u.Valid()
    ensures Clean(u, "documentation")
  {
    var w, d := "documentation", "documentations";
    assert forall i | 0 <= i < |w| :: w[i] == d[i] && d[i] in d;
  }

  lemma AliasedWordIsPlain(u: Unicode, t: string)
    requires u.Valid() && Aliases(t) != []
    ensures Clean(u, t) && IsLower(u, t) && Clean(u, "documentation") && Aliases(t) == ["documentation"]
  {
    var d := "documentations";
    assert d[0] == 'd' && d[1] == 'o' && d[2] == 'c' && d[13] == 's';
    DocumentationIsClean(u);
    assert t == "doc" || t == "docs";
  }

  lemma ExpansionOfAlias(t: string)
    requires Aliases(t) != []
    ensures ExpandTokens([t]) == [t] + Aliases(t)
  {
    assert |t| < |"documentation"|;
    assert [t][..0] == [] && [t][..1] == [t];
    ExpandOneMore([t], 0);
  }

  /** The words that have an alias are "doc" and "docs", and the alias is "documentation". */
  lemma AliasesAre(t: string)
    ensures ExpandTokens([t]) == if t == "doc" || t == "docs" then [t, "documentation"] else [t]
  {
    if Aliases(t) == [] {
      assert [t][..0] == [] && [t][..1] == [t];
      ExpandOneMore([t], 0);
    } else {
      ExpansionOfAlias(t);
    }
  }

  lemma WordsOfAlias(u: Unicode, t: string)
    requires u.Valid() && Aliases(t) != []
    ensures NormalizeSearchText(u, Some(t)) == Some(t) && Tokens(u, t) == [t]
    ensures ExpandSearchAliases(u, Some(t)).Some?
    ensures Tokens(u, ExpandSearchAliases(u, Some(t)).value) == [t] + Aliases(t)
  {
    AliasedWordIsPlain(u, t);
    ExpansionOfAlias(t);
    assert Join([t]) == t;
    hide Aliases, ExpandTokens, Clean, IsLower;
    NormalizeJoined(u, [t]);
    TokensOfJoin(u, [t]);
    TokensOfJoin(u, ExpandTokens([t]));
    assert Join([t] + Aliases(t))[0] == t[0];
  }

  lemma ExpandedWords(u: Unicode, query: Option<string>)
    requires u.Valid() && ExpandSearchAliases(u, query).Some?
    ensures Tokens(u, ExpandSearchAliases(u, query).value)
      == ExpandTokens(Tokens(u, NormalizeSearchText(u, query).value))
  {
    var raw := Tokens(u, NormalizeSearchText(u, query).value);
    forall t | t in ExpandTokens(raw) ensures Clean(u, t) {
      ExpansionMembers(raw, t);
      DocumentationIsClean(u);
    }
    TokensOfJoin(u, ExpandTokens(raw));
  }

  lemma OneWordMisses(u: Unicode, lex: Lexer, document: seq<string>, t: string, a: string)
    requires u.Valid() && a in Aliases(t) && lex(t) != {}
    requires lex(t) <= Lexemes(lex, document) && !(lex(a) <= Lexemes(lex, document))
    ensures ExpandSearchAliases(u, Some(t)).Some? && NormalizeSearchText(u, Some(t)).Some?
    ensures Hits(lex, Tokens(u, NormalizeSearchText(u, Some(t)).value), document)
    ensures !Hits(lex, Tokens(u, ExpandSearchAliases(u, Some(t)).value), document)
  {
    WordsOfAlias(u, t);
    OneWordLexemes(lex, t, [t]);
    var l :| l in lex(a) && l !in Lexemes(lex, document);
    assert a in [t] + Aliases(t);
    assert l in Lexemes(lex, [t] + Aliases(t));
  }

  /** The expansion changes no query's hits exactly when the document contains the lexemes of an
      alias whenever it contains those of the aliased word. */
  lemma ExpandedQueryHitsAsRawIff(u: Unicode, lex: Lexer, document: seq<string>)
    requires u.Valid() && lex("doc") != {} && lex("docs") != {}
    ensures LexemesClosed(lex, document) <==>
      forall query: Option<string> | ExpandSearchAliases(u, query).Some? ::
        NormalizeSearchText(u, query).Some?
        && (Hits(lex, Tokens(u, ExpandSearchAliases(u, query).value), document)
            <==> Hits(lex, Tokens(u, NormalizeSearchText(u, query).value), document))
  {
    if LexemesClosed(lex, document) {
      forall query: Option<string> | ExpandSearchAliases(u, query).Some?
        ensures NormalizeSearchText(u, query).Some?
        ensures Hits(lex, Tokens(u, ExpandSearchAliases(u, query).value), document)
          <==> Hits(lex, Tokens(u, NormalizeSearchText(u, query).value), document)
      {
        var raw := Tokens(u, NormalizeSearchText(u, query).value);
        HitsOfExpansion(lex, raw, document);
        WordLexemes(lex, raw);
        hide ExpandTokens, Lexemes;
        ExpandedWords(u, query);
      }
    } else {
      var t, a :| a in Aliases(t) && lex(t) <= Lexemes(lex, document) && !(lex(a) <= Lexemes(lex, document));
      OneWordMisses(u, lex, document, t, a);
    }
  }

  /** For a document source it is enough that the lexemes of an aliased word come from the word
      itself, not from a part of some other word. */
  lemma SourceLexemesAreClosed(u: Unicode, lex: Lexer, parts: seq<Option<string>>)
    requires u.Valid()
    requires forall t | Aliases(t) != [] && lex(t) <= Lexemes(lex, Tokens(u, DocumentSource(u, parts))) ::
      t in Tokens(u, DocumentSource(u, parts))
    ensures LexemesClosed(lex, Tokens(u, DocumentSource(u, parts)))
  {
    SourceIsClosed(u, parts);
  }

  // --- The rows a query finds -------------------------------------------------------------------

  /** The searchable facts of a version, with its tags as `normalize_tag_list` leaves them. */
  datatype Facts = Facts(slug: string, name: string, description: Option<string>, tags: seq<string>)

  function Parts(f: Facts): seq<Option<string>> {
    [Some(f.slug), Some(f.name)]
    + (if f.description.Some? then [f.description] else [])
    + seq(|f.tags|, i requires 0 <= i < |f.tags| => Some(f.tags[i]))
  }

  function OrEmpty(value: Option<string>): string {
    if value.Some? then value.value else ""
  }

  /** A row of the search documents with the facts it was built from. */
  datatype IndexedRow = IndexedRow(u: Unicode, lex: Lexer, columns: SearchRanking.Document, facts: Facts) {
    ghost predicate Valid() {
      u.Valid() && lex("doc") != {} && lex("docs") != {}
    }

    ghost function Words(): seq<string> {
      Tokens(u, DocumentSource(u, Parts(facts)))
    }

    function Slug(): string {
      OrEmpty(NormalizeSearchText(u, Some(facts.slug)))
    }

    function Name(): string {
      OrEmpty(NormalizeSearchText(u, Some(facts.name)))
    }

    /** The row as a query with this full text meets it. */
    ghost function Document(fullText: Option<string>): SearchRanking.Document {
      columns.(
        normalizedSlug := Slug(),
        normalizedName := Name(),
        textHit := fullText.Some? && Hits(lex, Tokens(u, fullText.value), Words()))
    }

    ghost predicate Finds(r: SearchRanking.Request, query: Option<string>, fullText: Option<string>) {
      SearchRanking.TextClause(Document(fullText),
        r.(identityText := NormalizeSearchText(u, query), fullText := fullText))
    }

    /** Were the typed words the full text. */
    ghost predicate FoundAsTyped(r: SearchRanking.Request, query: Option<string>) {
      Finds(r, query, NormalizeSearchText(u, query))
    }

    /** What the service asks for. */
    ghost predicate FoundExpanded(r: SearchRanking.Request, query: Option<string>) {
      Finds(r, query, ExpandSearchAliases(u, NormalizeSearchText(u, query)))
    }

    ghost predicate Contains(text: string) {
      || (exists at :: LikePattern.Occurs(text, Slug(), at))
      || (exists at :: LikePattern.Occurs(text, Name(), at))
    }

    ghost predicate LacksAnAlias(words: seq<string>) {
      exists t, a | t in words && a in Aliases(t) :: !(lex(a) <= Lexemes(lex, Words()))
    }
  }

  /** The words of an expanded query, also where the query has been normalized before. */
  lemma ExpandedOfNormalized(u: Unicode, query: Option<string>)
    requires u.Valid()
    ensures ExpandSearchAliases(u, NormalizeSearchText(u, query)) == ExpandSearchAliases(u, query)
  {
    if NormalizeSearchText(u, query).Some? {
      var normalized := NormalizeSearchText(u, query).value;
      var raw := Tokens(u, normalized);
      TokensOfLower(u, normalized);
      assert Tokens(u, []) == [] && ExpandTokens([]) == [];
      if raw == [] {
        assert u.lower(Join(raw)) == [];
      } else {
        NormalizeJoined(u, raw);
        TokensOfJoin(u, raw);
      }
    }
  }

  lemma ExpandedWordsAreClean(u: Unicode, raw: seq<string>)
    requires u.Valid() && forall t | t in raw :: Clean(u, t)
    ensures forall t | t in ExpandTokens(raw) :: Clean(u, t)
  {
    DocumentationIsClean(u);
    forall t | t in ExpandTokens(raw) ensures Clean(u, t) {
      ExpansionMembers(raw, t);
    }
  }

  lemma {:induction false} JoinIsLong(u: Unicode, words: seq<string>)
    requires forall t | t in words :: Clean(u, t)
    ensures |Join(words)| >= |words|
  {
    if words != [] {
      assert words[0] in words;
      JoinIsLong(u, words[1..]);
    }
  }

  lemma NothingToExpand(u: Unicode, query: Option<string>)
    requires u.Valid() && NormalizeSearchText(u, query).Some? && ExpandSearchAliases(u, query).None?
    ensures Tokens(u, NormalizeSearchText(u, query).value) == []
  {
    var raw := Tokens(u, NormalizeSearchText(u, query).value);
    if raw != [] {
      ExpansionMembers(raw, raw[0]);
      ExpandedWordsAreClean(u, raw);
      JoinIsLong(u, ExpandTokens(raw));
    }
  }

  lemma NoWordsNoHit(lex: Lexer, document: seq<string>)
    ensures !Hits(lex, [], document)
  {
  }

  /** A row is lost to a query exactly when the typed words hit it, the query occurs neither in its
      slug nor in its name, and it lacks a lexeme of some alias. No row is gained. */
  lemma ExpansionLosesTheRowIff(x: IndexedRow, r: SearchRanking.Request, query: Option<string>)
    requires x.Valid()
    ensures x.FoundExpanded(r, query) ==> x.FoundAsTyped(r, query)
    ensures x.FoundAsTyped(r, query) && !x.FoundExpanded(r, query) <==>
      && NormalizeSearchText(x.u, query).Some?
      && var text := NormalizeSearchText(x.u, query).value;
         Hits(x.lex, Tokens(x.u, text), x.Words()) && !x.Contains(text) && x.LacksAnAlias(Tokens(x.u, text))
  {
    hide SearchRanking.TextClause, Hits, ExpandTokens, Tokens, LikePattern.Occurs, DocumentSource;
    ExpandedOfNormalized(x.u, query);
    if NormalizeSearchText(x.u, query).Some? {
      var typed, expanded := NormalizeSearchText(x.u, query), ExpandSearchAliases(x.u, query);
      var raw := Tokens(x.u, typed.value);
      SearchRanking.TextClauseMeansOccurs(x.Document(typed), r.(identityText := typed, fullText := typed));
      SearchRanking.TextClauseMeansOccurs(x.Document(expanded), r.(identityText := typed, fullText := expanded));
      HitsOfExpansion(x.lex, raw, x.Words());
      if expanded.Some? {
        ExpandedWords(x.u, query);
      } else {
        NothingToExpand(x.u, query);
        NoWordsNoHit(x.lex, x.Words());
      }
    }
  }

  function Copies(t: string, n: nat): (r: seq<string>)
    ensures |r| == n && forall w | w in r :: w == t
    ensures n > 0 ==> t in r
  {
    if n == 0 then [] else [t] + Copies(t, n - 1)
  }

  /** A query that is too long to occur in the slug or the name of the row. */
  lemma LongQueryLosesTheRow(x: IndexedRow, r: SearchRanking.Request, t: string, a: string)
    returns (query: Option<string>)
    requires x.Valid() && a in Aliases(t)
    requires x.lex(t) <= Lexemes(x.lex, x.Words()) && !(x.lex(a) <= Lexemes(x.lex, x.Words()))
    ensures x.FoundAsTyped(r, query) && !x.FoundExpanded(r, query)
  {
    hide x.Words, x.FoundAsTyped, x.FoundExpanded;
    var words := Copies(t, |x.Slug()| + |x.Name()| + 1);
    WordsOfAlias(x.u, t);
    NormalizeJoined(x.u, words);
    TokensOfJoin(x.u, words);
    JoinIsLong(x.u, words);
    OneWordLexemes(x.lex, t, words);
    query := Some(Join(words));
    ExpansionLosesTheRowIff(x, r, query);
  }

  /** Over all queries: the expansion never loses a row exactly when the row contains the lexemes of
      an alias whenever it contains those of the aliased word. */
  lemma ExpansionNeverLosesTheRowIff(x: IndexedRow, r: SearchRanking.Request)
    requires x.Valid()
    ensures LexemesClosed(x.lex, x.Words()) <==>
      forall query :: x.FoundAsTyped(r, query) <==> x.FoundExpanded(r, query)
  {
    if LexemesClosed(x.lex, x.Words()) {
      forall query ensures x.FoundAsTyped(r, query) <==> x.FoundExpanded(r, query) {
        ExpansionLosesTheRowIff(x, r, query);
        if NormalizeSearchText(x.u, query).Some? {
          WordLexemes(x.lex, Tokens(x.u, NormalizeSearchText(x.u, query).value));
        }
      }
    } else {
      var t, a :| a in Aliases(t) && x.lex(t) <= Lexemes(x.lex, x.Words()) && !(x.lex(a) <= Lexemes(x.lex, x.Words()));
      var query := LongQueryLosesTheRow(x, r, t, a);
    }
  }

  // --- A lost row ---------------------------------------------------------------------------------

  /** How the parser splits the words of the example. */
  function ExampleLexemes(word: string): set<string> {
    if word == "doc-string" then {"doc-string", "doc", "string"} else {word}
  }

  function ToolRow(columns: SearchRanking.Document): IndexedRow {
    IndexedRow(ASCII, ExampleLexemes, columns, Facts("tool", "tool", Some("doc-string"), []))
  }

  lemma PlainWord(w: string)
    requires w in {"tool", "doc-string"}
    ensures NormalizeSearchText(ASCII, Some(w)) == Some(w) && ExpandSearchAliases(ASCII, Some(w)) == Some(w)
    ensures Clean(ASCII, w)
  {
    AsciiIsValid();
    assert Clean(ASCII, w) && IsLower(ASCII, w) && Join([w]) == w;
    NormalizeJoined(ASCII, [w]);
    TokensOfJoin(ASCII, [w]);
    assert |w| != |"doc"| && w != "docs" by { assert "tool"[0] != 'd' && |"doc-string"| != |"docs"|; }
    assert [w][..0] == [] && [w][..1] == [w];
    ExpandOneMore([w], 0);
  }

  lemma SourceOfTool(columns: SearchRanking.Document)
    ensures ToolRow(columns).Words() == ["tool", "tool", "doc-string"]
    ensures ToolRow(columns).Slug() == "tool" && ToolRow(columns).Name() == "tool"
  {
    var words := ["tool", "tool", "doc-string"];
    var parts := [Some("tool"), Some("tool"), Some("doc-string")];
    PlainWord("tool");
    PlainWord("doc-string");
    assert Parts(ToolRow(columns).facts) == parts;
    assert parts[1..] == [Some("tool"), Some("doc-string")] && parts[2..] == [Some("doc-string")];
    assert parts[1..][1..] == parts[2..] && parts[2..][1..] == [];
    hide ExpandSearchAliases, NormalizeSearchText;
    assert NonEmpty(ASCII, parts[2..]) == ["doc-string"];
    assert NonEmpty(ASCII, parts[1..]) == ["tool", "doc-string"];
    assert NonEmpty(ASCII, parts) == words;
    AsciiIsValid();
    TokensOfJoin(ASCII, words);
  }

  lemma LexemesOfTool(columns: SearchRanking.Document)
    ensures var x := ToolRow(columns);
      x.u == ASCII && Hits(x.lex, ["doc"], x.Words()) && !(x.lex("documentation") <= Lexemes(x.lex, x.Words()))
      && x.lex("doc") != {} && x.lex("docs") != {}
  {
    var x := ToolRow(columns);
    SourceOfTool(columns);
    assert |"documentation"| != |"doc-string"| && |"documentation"| != |"doc"| && |"documentation"| != |"string"|;
    assert |"documentation"| != |"tool"| && |"doc"| != |"doc-string"| && |"doc"| != |"tool"|;
    assert "documentation" in x.lex("documentation");
    assert x.lex("doc") == {"doc"};
    OneWordLexemes(x.lex, "doc", ["doc"]);
    assert x.Words()[2] == "doc-string" && "doc" in x.lex("doc-string");
    hide x.Words;
    assert "doc" in Lexemes(x.lex, x.Words()) && "documentation" !in Lexemes(x.lex, x.Words());
  }

  lemma NotInTool(columns: SearchRanking.Document)
    ensures !ToolRow(columns).Contains("doc")
  {
    SourceOfTool(columns);
    var x := ToolRow(columns);
    forall at ensures !LikePattern.Occurs("doc", "tool", at) {
      if 0 <= at && at + 3 <= 4 {
        assert "tool"[at..at + 3][0] != "doc"[0];
      }
    }
  }

  /** It happens to a skill "tool" that is described as "doc-string": the query "doc" would find it by
      the part of the hyphenated word, and the expanded query requires "documentation" as well. */
  lemma ARowCanBeLost(columns: SearchRanking.Document, r: SearchRanking.Request)
    ensures ToolRow(columns).Valid()
    ensures ToolRow(columns).FoundAsTyped(r, Some("doc")) && !ToolRow(columns).FoundExpanded(r, Some("doc"))
  {
    var x := ToolRow(columns);
    AsciiIsValid();
    LexemesOfTool(columns);
    WordsOfAlias(ASCII, "doc");
    NotInTool(columns);
    hide ToolRow, ExampleLexemes, Lexemes;
    assert "doc" in ["doc"] && "documentation" in Aliases("doc");
    ExpansionLosesTheRowIff(x, r, Some("doc"));
  }

  /** The words of a row are those of its slug, its name, its description and its tags, with their aliases. */
  lemma WordsAreOfTheFacts(row: IndexedRow, word: string)
    requires row.Valid()
    ensures word in row.Words() <==>
      || Gives(row.u, Some(row.facts.slug), word) || Gives(row.u, Some(row.facts.name), word)
      || (row.facts.description.Some? && Gives(row.u, row.facts.description, word))
      || exists tag | tag in row.facts.tags :: Gives(row.u, Some(tag), word)
  {
    var f := row.facts;
    SourceWordsIff(row.u, Parts(f), word);
    hide Gives;
    var tags: seq<Option<string>> := seq(|f.tags|, i requires 0 <= i < |f.tags| => Some(f.tags[i]));
    forall tag | tag in f.tags ensures Some(tag) in tags {
      var i :| 0 <= i < |f.tags| && f.tags[i] == tag;
      assert tags[i] == Some(tag);
    }
    assert forall p | p in tags :: p.Some? && p.value in f.tags;
    var described := if f.description.Some? then [f.description] else [];
    assert Parts(f) == [Some(f.slug), Some(f.name)] + described + tags;
    assert [Some(f.slug), Some(f.name)][0] == Some(f.slug) && [Some(f.slug), Some(f.name)][1] == Some(f.name);
    assert f.description.Some? ==> described[0] == f.description;
  }
}
