/** The canonical JSON text that is hashed: sorted keys, no white space, strings escaped as in
    section 7 of RFC 8259 with everything outside ASCII left as it is; and a reader that takes the
    text back to the value. */
module CanonicalJson {
  import opened Collections
  import opened Orders
  import opened SearchRanking

  predicate IsDigit(c: char) {
    '0' <= c <= '9'
  }

  /** Characters of number tokens, including those of NaN and Infinity. */
  predicate IsNumberChar(c: char) {
    || IsDigit(c) || c == '+' || c == '-' || c == '.' || c == 'e' || c == 'E'
    || c == 'N' || c == 'a' || c == 'I' || c == 'n' || c == 'f' || c == 'i' || c == 't' || c == 'y'
  }

  predicate StartsNumber(c: char) {
    IsDigit(c) || c == '-' || c == 'N' || c == 'I'
  }

  /** A number token: what `repr` of an int or a float prints. */
  predicate IsLexeme(s: string) {
    s != [] && StartsNumber(s[0]) && forall i | 0 <= i < |s| :: IsNumberChar(s[i])
  }

  type Lexeme = s: string | IsLexeme(s) witness "0"

  datatype Json =
    | Null
    | Boolean(b: bool)
    | Number(lexeme: Lexeme)
    | String(s: string)
    | Array(items: seq<Json>)
    | Object(fields: map<string, Json>)

  // Every printer below produces the text of a value followed by `rest`.

  function HexDigit(n: nat): char
    requires n < 16
  {
    if n < 10 then '0' + n as char else 'a' + (n - 10) as char
  }

  /** The letter of a two-character escape, or NUL for characters without one. */
  function ShortEscape(c: char): char {
    if c == '"' then '"'
    else if c == '\\' then '\\'
    else if c == '\n' then 'n'
    else if c == '\r' then 'r'
    else if c == '\t' then 't'
    else if c == 12 as char then 'f'
    else if c == 8 as char then 'b'
    else 0 as char
  }

  function CharTo(c: char, rest: string): string {
    if ShortEscape(c) != 0 as char then ['\\'] + ([ShortEscape(c)] + rest)
    else if c < 32 as char then
      ['\\'] + (['u'] + (['0'] + (['0'] + ([HexDigit(c as int / 16)] + ([HexDigit(c as int % 16)] + rest)))))
    else [c] + rest
  }

  /** The characters of a string literal, then the closing quote. */
  function CharsTo(s: string, rest: string): string {
    if s == [] then ['"'] + rest else CharTo(s[0], CharsTo(s[1..], rest))
  }

  function QuoteTo(s: string, rest: string): string {
    ['"'] + CharsTo(s, rest)
  }

  lemma TextBeforeIsOrder(keys: set<string>)
    ensures StrictOrder(TextBefore)
    ensures SeparatesSet(TextBefore, keys)
  {
    forall x ensures !TextBefore(x, x) { TextBeforeIsStrict(x); }
    forall x, y, z | TextBefore(x, y) && TextBefore(y, z) ensures TextBefore(x, z) { TextBeforeTransitive(x, y, z); }
    forall x, y | x in keys && y in keys && x != y ensures TextBefore(x, y) || TextBefore(y, x) {
      TextBeforeSeparates(x, y);
    }
  }

  /** `sort_keys=True`. */
  function SortedKeys(keys: set<string>): (r: seq<string>)
    ensures Elements(r) == keys && |r| == |keys|
    ensures forall k :: k in r <==> k in keys
  {
    TextBeforeIsOrder(keys);
    SortSet(TextBefore, keys)
  }

  function PrintTo(j: Json, rest: string): string
    decreases j, 2, 0
  {
    match j
    case Null => "null" + rest
    case Boolean(b) => (if b then "true" else "false") + rest
    case Number(lexeme) => lexeme + rest
    case String(s) => QuoteTo(s, rest)
    case Array(items) => ['['] + if items == [] then [']'] + rest else PrintTo(items[0], ItemsTo(items[1..], rest))
    case Object(fields) =>
      var keys := SortedKeys(fields.Keys);
      ['{'] + if keys == [] then ['}'] + rest else MemberTo(j, keys[0], MembersTo(j, keys[1..], rest))
  }

  /** The items after the first, then the closing bracket. */
  function ItemsTo(items: seq<Json>, rest: string): string
    decreases items, 1, |items|
  {
    if items == [] then [']'] + rest else [','] + PrintTo(items[0], ItemsTo(items[1..], rest))
  }

  function MemberTo(j: Json, key: string, rest: string): string
    requires j.Object? && key in j.fields
    decreases j, 0, 0
  {
    QuoteTo(key, [':'] + PrintTo(j.fields[key], rest))
  }

  /** The members after the first, then the closing brace. */
  function MembersTo(j: Json, keys: seq<string>, rest: string): string
    requires j.Object? && forall k | k in keys :: k in j.fields
    decreases j, 1, |keys|
  {
    if keys == [] then ['}'] + rest else [','] + MemberTo(j, keys[0], MembersTo(j, keys[1..], rest))
  }

  /** `json.dumps(value, sort_keys=True, separators=(",", ":"), ensure_ascii=False)`. */
  function Print(j: Json): string {
    PrintTo(j, [])
  }

  // --- The reader -------------------------------------------------------------------------------

  predicate IsHex(c: char) {
    IsDigit(c) || 'a' <= c <= 'f'
  }

  function HexValue(c: char): (n: nat)
    requires IsHex(c)
    ensures n < 16
  {
    if IsDigit(c) then c as int - '0' as int else c as int - 'a' as int + 10
  }

  /** The character that a letter after a backslash stands for, or NUL. */
  function Unescaped(c: char): char {
    if c == '"' || c == '\\' then c
    else if c == 'n' then '\n'
    else if c == 'r' then '\r'
    else if c == 't' then '\t'
    else if c == 'f' then 12 as char
    else if c == 'b' then 8 as char
    else 0 as char
  }

  /** One character of a string literal, escaped or not, and the text after it. */
  function ReadChar(s: string): (r: Option<(char, string)>)
    ensures r.Some? ==> |r.value.1| < |s|
  {
    if s == [] then None
    else if s[0] != '\\' then Some((s[0], s[1..]))
    else if |s| >= 2 && Unescaped(s[1]) != 0 as char then Some((Unescaped(s[1]), s[2..]))
    else if |s| >= 6 && s[1] == 'u' && IsHex(s[2]) && IsHex(s[3]) && IsHex(s[4]) && IsHex(s[5]) then
      var code := ((HexValue(s[2]) * 16 + HexValue(s[3])) * 16 + HexValue(s[4])) * 16 + HexValue(s[5]);
      if code < 0xD800 then Some((code as char, s[6..])) else None
    else None
  }

  /** The rest of a string literal, through the closing quote. */
  function ReadChars(s: string): (r: Option<(string, string)>)
    ensures r.Some? ==> |r.value.1| < |s|
    decreases |s|
  {
    if s != [] && s[0] == '"' then Some(([], s[1..]))
    else
      match ReadChar(s)
      case None => None
      case Some((c, after)) =>
        match ReadChars(after)
        case None => None
        case Some((t, rest)) => Some(([c] + t, rest))
  }

  /** The longest prefix of number characters. */
  function NumberPrefix(s: string): (n: string)
    ensures n <= s && forall i | 0 <= i < |n| :: IsNumberChar(n[i])
  {
    if s == [] || !IsNumberChar(s[0]) then [] else [s[0]] + NumberPrefix(s[1..])
  }

  function ReadNumber(s: string): (r: Option<(Json, string)>)
    ensures r.Some? ==> |r.value.1| < |s|
  {
    var lexeme := NumberPrefix(s);
    if IsLexeme(lexeme) then Some((Number(lexeme), s[|lexeme|..])) else None
  }

  /** A value at the front of a text, and the text after it. */
  function Read(s: string): (r: Option<(Json, string)>)
    ensures r.Some? ==> |r.value.1| < |s|
    decreases |s|, 0
  {
    if s == [] then None
    else if "null" <= s then Some((Null, s[4..]))
    else if "true" <= s then Some((Boolean(true), s[4..]))
    else if "false" <= s then Some((Boolean(false), s[5..]))
    else if s[0] == '"' then
      match ReadChars(s[1..])
      case None => None
      case Some((t, rest)) => Some((String(t), rest))
    else if s[0] == '[' then
      if |s| > 1 && s[1] == ']' then Some((Array([]), s[2..]))
      else
        match ReadItems(s[1..])
        case None => None
        case Some((items, rest)) => Some((Array(items), rest))
    else if s[0] == '{' then
      if |s| > 1 && s[1] == '}' then Some((Object(map[]), s[2..]))
      else
        match ReadMembers(s[1..])
        case None => None
        case Some((fields, rest)) => Some((Object(fields), rest))
    else ReadNumber(s)
  }

  /** One or more items, through the closing bracket. */
  function ReadItems(s: string): (r: Option<(seq<Json>, string)>)
    ensures r.Some? ==> |r.value.1| < |s|
    decreases |s|, 1
  {
    match Read(s)
    case None => None
    case Some((item, after)) =>
      if after != [] && after[0] == ']' then Some(([item], after[1..]))
      else if after != [] && after[0] == ',' then
        match ReadItems(after[1..])
        case None => None
        case Some((items, rest)) => Some(([item] + items, rest))
      else None
  }

  function ReadMember(s: string): (r: Option<(string, Json, string)>)
    ensures r.Some? ==> |r.value.2| < |s|
    decreases |s|, 1
  {
    if s == [] || s[0] != '"' then None
    else
      match ReadChars(s[1..])
      case None => None
      case Some((key, after)) =>
        if after == [] || after[0] != ':' then None
        else
          match Read(after[1..])
          case None => None
          case Some((value, rest)) => Some((key, value, rest))
  }

  /** One or more members, through the closing brace; a repeated key keeps its last value. */
  function ReadMembers(s: string): (r: Option<(map<string, Json>, string)>)
    ensures r.Some? ==> |r.value.1| < |s|
    decreases |s|, 2
  {
    match ReadMember(s)
    case None => None
    case Some((key, value, after)) =>
      if after != [] && after[0] == '}' then Some((map[key := value], after[1..]))
      else if after != [] && after[0] == ',' then
        match ReadMembers(after[1..])
        case None => None
        case Some((fields, rest)) => Some((map[key := value] + fields, rest))
      else None
  }

  /** `json.loads` of a canonical text: one value and nothing after it. */
  function Parse(s: string): Option<Json> {
    match Read(s)
    case Some((j, rest)) => if rest == [] then Some(j) else None
    case None => None
  }

  // --- Reading what was printed -------------------------------------------------------------------

  /** What can follow a value inside a text: nothing, or a separator. */
  predicate Delimited(rest: string) {
    rest == [] || rest[0] == ',' || rest[0] == ']' || rest[0] == '}'
  }

  lemma HexReadBack(n: nat)
    requires n < 16
    ensures IsHex(HexDigit(n)) && HexValue(HexDigit(n)) == n
  {
  }

  lemma ReadCharTo(c: char, rest: string)
    ensures CharTo(c, rest) != [] && CharTo(c, rest)[0] != '"'
    ensures ReadChar(CharTo(c, rest)) == Some((c, rest))
  {
    var s := CharTo(c, rest);
    if ShortEscape(c) != 0 as char {
      assert s[2..] == rest;
    } else if c < 32 as char {
      HexReadBack(c as int / 16);
      HexReadBack(c as int % 16);
      assert s[6..] == rest && s[1] == 'u' && s[4] == HexDigit(c as int / 16) && s[5] == HexDigit(c as int % 16);
      assert (c as int / 16) * 16 + c as int % 16 == c as int;
    } else {
      assert s[1..] == rest;
    }
  }

  lemma {:induction false} ReadCharsTo(t: string, rest: string)
    ensures ReadChars(CharsTo(t, rest)) == Some((t, rest))
  {
    if t == [] {
      assert CharsTo(t, rest)[1..] == rest;
    } else {
      ReadCharTo(t[0], CharsTo(t[1..], rest));
      ReadCharsTo(t[1..], rest);
      assert t == [t[0]] + t[1..];
    }
  }

  lemma {:induction false} NumberPrefixOf(s: string, rest: string)
    requires (forall i | 0 <= i < |s| :: IsNumberChar(s[i])) && Delimited(rest)
    ensures NumberPrefix(s + rest) == s
  {
    if s == [] {
      assert s + rest == rest;
    } else {
      NumberPrefixOf(s[1..], rest);
      assert (s + rest)[1..] == s[1..] + rest;
    }
  }

  lemma ReadLexeme(lexeme: Lexeme, rest: string)
    requires Delimited(rest)
    ensures Read(lexeme + rest) == Some((Number(lexeme), rest))
  {
    var s := lexeme + rest;
    NumberPrefixOf(lexeme, rest);
    assert s[0] == lexeme[0] && StartsNumber(lexeme[0]) && s[|lexeme|..] == rest;
    assert s[0] != "null"[0] && s[0] != "true"[0] && s[0] != "false"[0];
  }

  /** What follows the first character of an array or an object. */
  lemma Opened(c: char, body: string)
    ensures ([c] + body)[0] == c && ([c] + body)[1..] == body
    ensures body != [] ==> ([c] + body)[1] == body[0] && ([c] + body)[2..] == body[1..]
  {
  }

  /** No value starts like the end of a list. */
  lemma ValueHead(j: Json, rest: string)
    ensures PrintTo(j, rest) != [] && PrintTo(j, rest)[0] != ']' && PrintTo(j, rest)[0] != '}'
  {
    if j.Number? {
      assert StartsNumber(j.lexeme[0]) && (j.lexeme + rest)[0] == j.lexeme[0];
    }
  }

  /** The reader inverts the printer, also with text following: reading a printed value gives the
      value and exactly the text after it. */
  lemma {:induction false} ReadPrinted(j: Json, rest: string)
    requires Delimited(rest)
    ensures Read(PrintTo(j, rest)) == Some((j, rest))
    decreases j, 2, 0
  {
    var s := PrintTo(j, rest);
    match j
    case Null => assert s[4..] == rest && "null" <= s;
    case Boolean(b) =>
      if b {
        assert s[4..] == rest && "true" <= s && s[0] == 't';
      } else {
        assert s[5..] == rest && "false" <= s && s[0] == 'f';
      }
    case Number(lexeme) => ReadLexeme(lexeme, rest);
    case String(t) =>
      ReadCharsTo(t, rest);
      Opened('"', CharsTo(t, rest));
    case Array(items) =>
      if items == [] {
        Opened('[', [']'] + rest);
      } else {
        ReadPrintedItems(j, items, rest);
        ValueHead(items[0], ItemsTo(items[1..], rest));
        Opened('[', PrintTo(items[0], ItemsTo(items[1..], rest)));
      }
    case Object(fields) => ReadPrintedObject(j, rest);
  }

  lemma {:induction false} ReadPrintedItems(context: Json, items: seq<Json>, rest: string)
    requires items != [] && forall e | e in items :: e < context
    ensures ReadItems(PrintTo(items[0], ItemsTo(items[1..], rest))) == Some((items, rest))
    decreases context, 1, |items|
  {
    var tail := ItemsTo(items[1..], rest);
    assert items[0] in items;
    ReadPrinted(items[0], tail);
    assert items == [items[0]] + items[1..];
    if |items| == 1 {
      assert items[1..] == [] && items == [items[0]];
      Opened(']', rest);
    } else {
      assert forall e | e in items[1..] :: e in items;
      ReadPrintedItems(context, items[1..], rest);
      Opened(',', PrintTo(items[1..][0], ItemsTo(items[1..][1..], rest)));
    }
  }

  lemma {:induction false} ReadPrintedMember(j: Json, key: string, rest: string)
    requires j.Object? && key in j.fields && Delimited(rest)
    ensures ReadMember(MemberTo(j, key, rest)) == Some((key, j.fields[key], rest))
    decreases j, 0, 0
  {
    var value := PrintTo(j.fields[key], rest);
    ReadPrinted(j.fields[key], rest);
    ReadCharsTo(key, [':'] + value);
    Opened('"', CharsTo(key, [':'] + value));
    Opened(':', value);
  }

  function Restricted(fields: map<string, Json>, keys: seq<string>): map<string, Json>
    requires forall k | k in keys :: k in fields
  {
    map k | k in keys :: fields[k]
  }

  lemma {:induction false} ReadPrintedMembers(j: Json, keys: seq<string>, rest: string)
    requires j.Object? && keys != [] && forall k | k in keys :: k in j.fields
    ensures ReadMembers(MemberTo(j, keys[0], MembersTo(j, keys[1..], rest))) == Some((Restricted(j.fields, keys), rest))
    decreases j, 1, |keys|
  {
    hide ReadMember, MemberTo, Read, PrintTo, ReadChars;
    var tail := MembersTo(j, keys[1..], rest);
    ReadPrintedMember(j, keys[0], tail);
    assert keys == [keys[0]] + keys[1..];
    if |keys| == 1 {
      Opened('}', rest);
      assert Restricted(j.fields, keys) == map[keys[0] := j.fields[keys[0]]];
    } else {
      ReadPrintedMembers(j, keys[1..], rest);
      Opened(',', MemberTo(j, keys[1..][0], MembersTo(j, keys[1..][1..], rest)));
      assert Restricted(j.fields, keys) == map[keys[0] := j.fields[keys[0]]] + Restricted(j.fields, keys[1..]);
    }
  }

  lemma ReadOpenedObject(body: string)
    requires body != [] && body[0] != '}'
    ensures Read(['{'] + body) == match ReadMembers(body)
      case None => None case Some((fields, rest)) => Some((Object(fields), rest))
  {
    hide ReadMembers;
    Opened('{', body);
    var s := ['{'] + body;
    assert "null"[0] != s[0] && "true"[0] != s[0] && "false"[0] != s[0];
  }

  lemma ReadEmptyObject(j: Json, rest: string)
    requires j.Object? && SortedKeys(j.fields.Keys) == []
    ensures Read(PrintTo(j, rest)) == Some((j, rest))
  {
    Opened('{', ['}'] + rest);
    assert j.fields == map[];
    assert "null"[0] != '{' && "true"[0] != '{' && "false"[0] != '{';
  }

  lemma PrintedObject(j: Json, rest: string)
    requires j.Object? && SortedKeys(j.fields.Keys) != []
    ensures var keys := SortedKeys(j.fields.Keys);
      var body := MemberTo(j, keys[0], MembersTo(j, keys[1..], rest));
      PrintTo(j, rest) == ['{'] + body && body != [] && body[0] == '"' && Restricted(j.fields, keys) == j.fields
  {
    var keys := SortedKeys(j.fields.Keys);
    assert Restricted(j.fields, keys) == j.fields;
  }

  lemma {:induction false} ReadPrintedObject(j: Json, rest: string)
    requires j.Object?
    ensures Read(PrintTo(j, rest)) == Some((j, rest))
    decreases j, 1, |j.fields| + 1
  {
    hide PrintTo, MemberTo, MembersTo, Read, ReadMembers, SortedKeys, Restricted;
    var keys := SortedKeys(j.fields.Keys);
    if keys == [] {
      ReadEmptyObject(j, rest);
    } else {
      var body := MemberTo(j, keys[0], MembersTo(j, keys[1..], rest));
      PrintedObject(j, rest);
      ReadPrintedMembers(j, keys, rest);
      ReadOpenedObject(body);
    }
  }

  /** Parsing a canonical text gives the value it was printed from. */
  lemma ParseInvertsPrint(j: Json)
    ensures Parse(Print(j)) == Some(j)
  {
    ReadPrinted(j, []);
  }

  /** The canonical text determines the value. */
  lemma CanonicalTextIsInjective(i: Json, j: Json)
    ensures Print(i) == Print(j) <==> i == j
  {
    ParseInvertsPrint(i);
    ParseInvertsPrint(j);
  }
}
