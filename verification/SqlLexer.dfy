/** The lexical structure of a query, after section 4.1 of the PostgreSQL 16 documentation: words,
    quoted identifiers, the several kinds of string constants, dollar quotes, parameters, numbers
    and comments. Tokens keep their text, so nothing of the query is lost. */
module SqlLexer {
  import opened SqlText

  /** Constants are plain, with backslash escapes (E), bit strings (B, X) or with Unicode escapes (U&);
      Open is a comment, quoted identifier or constant that does not end. */
  datatype Kind = Space | Comment | Ident | Word | Numeral | Param(n: nat) | Str | EscapeStr | BitStr | UnicodeStr
                | DollarStr | Symbol | Open

  datatype Token = Token(kind: Kind, text: string)

  /** A token that starts at a known position. */
  datatype Lexeme = Lexeme(kind: Kind, end: nat)

  predicate IsConstant(k: Kind) {
    k.Str? || k.EscapeStr? || k.BitStr? || k.UnicodeStr?
  }

  /** Two quotes inside stand for one. */
  predicate Doubles(k: Kind) {
    k.Str? || k.EscapeStr? || k.UnicodeStr?
  }

  // ---------------------------------------------------------------- white space and comments

  predicate IsBreak(c: char) {
    c == '\n' || c == '\r'
  }

  predicate Break(s: string, lo: nat, hi: nat)
    requires lo <= hi <= |s|
  {
    exists k :: lo <= k < hi && IsBreak(s[k])
  }

  /** The line break that ends a line comment, or the end of the text. */
  function CommentStop(s: string, i: nat): (r: nat)
    requires i <= |s|
    ensures i <= r <= |s| && (r < |s| ==> IsBreak(s[r])) && forall k :: i <= k < r ==> !IsBreak(s[k])
    decreases |s| - i
  {
    if i == |s| || IsBreak(s[i]) then i else CommentStop(s, i + 1)
  }

  /** Past the end of a block comment of which depth levels are open at i, or -1. */
  function BlockClose(s: string, i: nat, depth: nat): (r: int)
    requires i <= |s| && depth > 0
    ensures r == -1 || i + 2 <= r <= |s|
    decreases |s| - i
  {
    if i + 1 >= |s| then -1
    else if Pair(s, i, '/', '*') then BlockClose(s, i + 2, depth + 1)
    else if Pair(s, i, '*', '/') then (if depth == 1 then i + 2 else BlockClose(s, i + 2, depth - 1))
    else BlockClose(s, i + 1, depth)
  }

  /** Where white space and line comments from i on end. */
  function SepEnd(s: string, i: nat): (r: nat)
    requires i <= |s|
    ensures i <= r <= |s|
    decreases |s| - i
  {
    if i == |s| then i
    else if IsWhite(s[i]) then SepEnd(s, i + 1)
    else if Pair(s, i, '-', '-') then SepEnd(s, CommentStop(s, i + 2))
    else i
  }

  // ---------------------------------------------------------------- quoted text

  /** Past the closing quote of a quoted identifier whose inside is at i, or -1. */
  function IdentClose(s: string, i: nat): (r: int)
    requires i <= |s|
    ensures r == -1 || i < r <= |s|
    decreases |s| - i
  {
    if i == |s| then -1
    else if s[i] != '"' then IdentClose(s, i + 1)
    else if i + 1 < |s| && s[i + 1] == '"' then IdentClose(s, i + 2)
    else i + 1
  }

  /** Past the closing quote of a part of a constant whose inside is at i, or -1. */
  function PartEnd(s: string, i: nat, k: Kind): (r: int)
    requires i <= |s|
    ensures r == -1 || (i < r <= |s| && s[r - 1] == '\'')
    decreases |s| - i
  {
    if i == |s| then -1
    else if k.EscapeStr? && s[i] == '\\' then (if i + 1 == |s| then -1 else PartEnd(s, i + 2, k))
    else if s[i] != '\'' then PartEnd(s, i + 1, k)
    else if Doubles(k) && i + 1 < |s| && s[i + 1] == '\'' then PartEnd(s, i + 2, k)
    else i + 1
  }

  /** A constant whose part ends at e goes on: white space or line comments with a line break, then a
      quote (section 4.1.2.1). */
  predicate Continues(s: string, e: nat)
    requires e <= |s|
  {
    var w := SepEnd(s, e);
    w < |s| && s[w] == '\'' && Break(s, e, w)
  }

  /** Past the end of a constant whose inside is at i, or -1. */
  function ConstEnd(s: string, i: nat, k: Kind): (r: int)
    requires i <= |s|
    ensures r == -1 || i < r <= |s|
    decreases |s| - i
  {
    var e := PartEnd(s, i, k);
    if e >= 0 && Continues(s, e) then ConstEnd(s, SepEnd(s, e) + 1, k) else e
  }

  // ---------------------------------------------------------------- words

  predicate IsWordChar(c: char) {
    IsTagChar(c) || c == '$'
  }

  function WordEnd(s: string, i: nat): (r: nat)
    requires i <= |s|
    ensures i <= r <= |s| && (forall k :: i <= k < r ==> IsWordChar(s[k])) && (r < |s| ==> !IsWordChar(s[r]))
    decreases |s| - i
  {
    if i < |s| && IsWordChar(s[i]) then WordEnd(s, i + 1) else i
  }

  predicate IsE(c: char) {
    c == 'e' || c == 'E'
  }

  predicate IsBX(c: char) {
    c == 'b' || c == 'B' || c == 'x' || c == 'X'
  }

  predicate IsU(c: char) {
    c == 'u' || c == 'U'
  }

  // ---------------------------------------------------------------- tokens

  function Ending(s: string, k: Kind, e: int): (r: Lexeme)
    requires e <= |s|
    ensures e >= 0 ==> r == Lexeme(k, e)
    ensures e < 0 ==> r == Lexeme(Open, |s|)
  {
    if e < 0 then Lexeme(Open, |s|) else Lexeme(k, e)
  }

  /** A word, or the constant or identifier of which it is the prefix. */
  function ReadWord(s: string, i: nat): (r: Lexeme)
    requires i < |s| && IsTagStart(s[i])
    ensures i < r.end <= |s|
  {
    var w := WordEnd(s, i);
    if w == i + 1 && w < |s| && s[w] == '\'' && IsE(s[i]) then Ending(s, EscapeStr, ConstEnd(s, w + 1, EscapeStr))
    else if w == i + 1 && w < |s| && s[w] == '\'' && IsBX(s[i]) then Ending(s, BitStr, ConstEnd(s, w + 1, BitStr))
    else if w == i + 1 && IsU(s[i]) && Pair(s, w, '&', '\'') then
      Ending(s, UnicodeStr, ConstEnd(s, w + 2, UnicodeStr))
    else if w == i + 1 && IsU(s[i]) && Pair(s, w, '&', '"') then Ending(s, Ident, IdentClose(s, w + 2))
    else Lexeme(Word, w)
  }

  function ReadDollar(s: string, i: nat): (r: Lexeme)
    requires i < |s| && s[i] == '$'
    ensures i < r.end <= |s|
  {
    if i + 1 < |s| && IsDigit(s[i + 1]) then
      Lexeme(Param(Number(s, i + 1, DigitsEnd(s, i + 1))), DigitsEnd(s, i + 1))
    else if TagEnd(s, i) > i then
      Ending(s, DollarStr, if Closing(s, i) < 0 then -1 else DollarEnd(s, i))
    else Lexeme(Symbol, i + 1)
  }

  /** The token at i. */
  function Read(s: string, i: nat): (r: Lexeme)
    requires i < |s|
    ensures i < r.end <= |s|
  {
    var c := s[i];
    if IsWhite(c) then Lexeme(Space, i + 1)
    else if Pair(s, i, '-', '-') then Lexeme(Comment, CommentStop(s, i + 2))
    else if Pair(s, i, '/', '*') then Ending(s, Comment, BlockClose(s, i + 2, 1))
    else if c == '"' then Ending(s, Ident, IdentClose(s, i + 1))
    else if c == '\'' then Ending(s, Str, ConstEnd(s, i + 1, Str))
    else if IsTagStart(c) then ReadWord(s, i)
    else if IsDigit(c) then Lexeme(Numeral, TagRun(s, i))
    else if c == '$' then ReadDollar(s, i)
    else Lexeme(Symbol, i + 1)
  }

  /** The tokens from i on. */
  function Lex(s: string, i: nat): seq<Token>
    requires i <= |s|
    decreases |s| - i
  {
    if i == |s| then []
    else var r := Read(s, i); [Token(r.kind, s[i..r.end])] + Lex(s, r.end)
  }

  function Texts(ts: seq<Token>): string {
    if ts == [] then "" else ts[0].text + Texts(ts[1..])
  }

  /** Nothing is lost: the texts of the tokens make up the query. */
  lemma {:induction false} LexIsLossless(s: string, i: nat)
    requires i <= |s|
    ensures Texts(Lex(s, i)) == s[i..]
    decreases |s| - i
  {
    hide Read;
    if i < |s| {
      var r := Read(s, i);
      LexIsLossless(s, r.end);
      assert Lex(s, i)[1..] == Lex(s, r.end);
      assert s[i..] == s[i..r.end] + s[r.end..];
    }
  }

  // ---------------------------------------------------------------- values

  /** The text a plain constant denotes, read from inside at i. */
  function ConstValue(s: string, i: nat): string
    requires i <= |s|
    decreases |s| - i
  {
    var r := Quote(s, i);
    if r.closed && Continues(s, r.end) then r.value + ConstValue(s, SepEnd(s, r.end) + 1) else r.value
  }

  /** The text a plain constant token denotes. */
  function Value(t: Token): string
    requires t.kind.Str? && t.text != ""
  {
    ConstValue(t.text, 1)
  }

  /** The part of a plain constant is a quoted region. */
  lemma {:induction false} PartIsQuote(s: string, i: nat)
    requires i <= |s|
    ensures PartEnd(s, i, Str) == if Quote(s, i).closed then Quote(s, i).end else -1
    decreases |s| - i
  {
    hide Quote;
    if i < |s| {
      QuoteUnfold(s, i);
      if s[i] != '\'' {
        PartIsQuote(s, i + 1);
      } else if i + 1 < |s| && s[i + 1] == '\'' {
        PartIsQuote(s, i + 2);
      }
    } else {
      assert !Quote(s, i).closed;
    }
  }
}
