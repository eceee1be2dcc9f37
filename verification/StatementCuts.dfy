/** Which semicolons splitStatements of internal/router/router.go cuts at: the reading region by region
    that holds for every text, and the comparison with the tokens the server sees. */
module StatementCuts {
  import opened SqlText
  import opened Statements
  import L = SqlLexer

  // ---------------------------------------------------------------- region by region

  /** Where the double-quoted region whose inside starts at i ends: past the next double quote. */
  function DoubleEnd(q: string, i: nat): (r: nat)
    requires i <= |q|
    ensures i <= r <= |q|
  {
    if Find(q, "\"", i) < 0 then |q| else Find(q, "\"", i) + 1
  }

  /** Past the end of the line. */
  function NextLine(q: string, i: nat): (r: nat)
    requires i <= |q|
    ensures i <= r <= |q|
  {
    if Find(q, "\n", i) < 0 then |q| else Find(q, "\n", i) + 1
  }

  /** Where what starts at top level at i ends: a dollar-quoted, single-quoted or double-quoted region, a
      line comment, a nested block comment, or a single character. A region that is not closed runs to
      the end of the text. */
  function RegionEnd(q: string, i: nat): (r: nat)
    requires i < |q|
    ensures i < r <= |q|
  {
    if TagEnd(q, i) > i then DollarEnd(q, i)
    else if q[i] == '\'' then Quote(q, i + 1).end
    else if q[i] == '"' then DoubleEnd(q, i + 1)
    else if Pair(q, i, '-', '-') then NextLine(q, i + 2)
    else if Pair(q, i, '/', '*') then (if L.BlockClose(q, i + 2, 1) < 0 then |q| else L.BlockClose(q, i + 2, 1))
    else i + 1
  }

  /** The segments with some text put in front of the first. */
  function Glue(text: string, segs: seq<string>): seq<string>
    requires |segs| > 0
  {
    [text + segs[0]] + segs[1..]
  }

  /** Inside single quotes nothing is cut up to the closing quote. */
  lemma {:induction false} SingleRegion(q: string, i: nat)
    requires i <= |q|
    ensures FirstCut(q, i, Single) == if Quote(q, i).closed then FirstCut(q, Quote(q, i).end, Plain) else |q|
    decreases |q| - i
  {
    hide Quote, FirstCut;
    if i == |q| {
      CutAtEnd(q, Single);
      QuoteAtEnd(q);
    } else {
      QuoteUnfold(q, i);
      CutUnfold(q, i, Single);
      assert Lexeme(q, i, Single) == if q[i] != '\'' then (i + 1, Single) else if Pair(q, i, '\'', '\'') then (i + 2, Single) else (i + 1, Plain);
      if q[i] != '\'' {
        SingleRegion(q, i + 1);
      } else if Pair(q, i, '\'', '\'') {
        SingleRegion(q, i + 2);
      }
    }
  }

  lemma CutAtEnd(q: string, m: Mode)
    ensures FirstCut(q, |q|, m) == |q|
  {}

  lemma QuoteAtEnd(q: string)
    ensures Quote(q, |q|) == Region(|q|, "", false)
  {}

  lemma CutUnfold(q: string, i: nat, m: Mode)
    requires i < |q|
    ensures FirstCut(q, i, m) == if m.Plain? && q[i] == ';' then i else FirstCut(q, Lexeme(q, i, m).0, Lexeme(q, i, m).1)
  {
    hide Lexeme;
  }

  lemma OneChar(q: string, c: char, i: nat)
    requires i < |q|
    ensures OccursAt(q, [c], i) <==> q[i] == c
  {
    assert [c][0] == c;
    if OccursAt(q, [c], i) {
      assert q[i + 0] == c;
    }
  }

  /** Inside double quotes nothing is cut up to the next double quote. */
  lemma {:induction false} DoubleRegion(q: string, i: nat)
    requires i <= |q|
    ensures FirstCut(q, i, Double) == FirstCut(q, DoubleEnd(q, i), Plain)
    decreases |q| - i
  {
    hide FirstCut;
    if i == |q| {
      CutAtEnd(q, Double);
      CutAtEnd(q, Plain);
      assert Find(q, "\"", i) < 0;
    } else {
      CutUnfold(q, i, Double);
      OneChar(q, '"', i);
      assert Lexeme(q, i, Double) == if q[i] == '"' then (i + 1, Plain) else (i + 1, Double);
      if q[i] != '"' {
        DoubleRegion(q, i + 1);
      }
    }
  }

  lemma {:induction false} LineRegion(q: string, i: nat)
    requires i <= |q|
    ensures LineEnd(q, i) == NextLine(q, i)
    decreases |q| - i
  {
    if i < |q| {
      OneChar(q, '\n', i);
      if q[i] != '\n' {
        LineRegion(q, i + 1);
      }
    } else {
      assert Find(q, "\n", i) < 0;
    }
  }

  lemma LineTwo(q: string, i: nat)
    requires Pair(q, i, '-', '-')
    ensures LineEnd(q, i) == LineEnd(q, i + 2)
  {
    assert LineEnd(q, i) == LineEnd(q, i + 1) == LineEnd(q, i + 2);
  }

  lemma {:induction false} BlockRegion(q: string, i: nat, depth: nat)
    requires i <= |q| && depth > 0
    ensures BlockEnd(q, i, depth) == if L.BlockClose(q, i, depth) < 0 then |q| else L.BlockClose(q, i, depth)
    decreases |q| - i
  {
    hide BlockEnd;
    BlockEndUnfold(q, i, depth);
    if i + 1 < |q| {
      if Pair(q, i, '/', '*') {
        BlockRegion(q, i + 2, depth + 1);
      } else if Pair(q, i, '*', '/') {
        if depth > 1 {
          BlockRegion(q, i + 2, depth - 1);
        } else {
          BlockEndUnfold(q, i + 2, 0);
        }
      } else {
        BlockRegion(q, i + 1, depth);
      }
    } else if i < |q| {
      BlockEndUnfold(q, i + 1, depth);
    }
  }

  /** At top level the scan goes from region to region. */
  lemma CutByRegion(q: string, i: nat)
    requires i < |q| && q[i] != ';'
    ensures FirstCut(q, i, Plain) == FirstCut(q, RegionEnd(q, i), Plain)
  {
    hide FirstCut, TagEnd, DollarEnd, LineEnd, BlockEnd, L.BlockClose, Quote, NextLine, DoubleEnd;
    CutUnfold(q, i, Plain);
    if TagEnd(q, i) > i {
    } else if q[i] == '\'' {
      SingleRegion(q, i + 1);
      OpenQuote(q, i + 1);
      CutAtEnd(q, Plain);
    } else if q[i] == '"' {
      DoubleRegion(q, i + 1);
    } else if Pair(q, i, '-', '-') {
      LineTwo(q, i);
      LineRegion(q, i + 2);
    } else if Pair(q, i, '/', '*') {
      BlockRegion(q, i + 2, 1);
    }
  }

  lemma {:induction false} OpenQuote(q: string, i: nat)
    requires i <= |q|
    ensures !Quote(q, i).closed ==> Quote(q, i).end == |q|
    decreases |q| - i
  {
    hide Quote;
    if i == |q| {
      QuoteAtEnd(q);
    } else {
      QuoteUnfold(q, i);
      if q[i] != '\'' {
        OpenQuote(q, i + 1);
      } else if i + 1 < |q| && q[i + 1] == '\'' {
        OpenQuote(q, i + 2);
      }
    }
  }

  /** The segments of every text, region by region: a semicolon at top level is a cut, and a semicolon
      anywhere inside a region is not. */
  lemma SegmentsByRegion(q: string, i: nat)
    requires i <= |q|
    ensures i == |q| ==> Segments(q, i) == [""]
    ensures i < |q| && q[i] == ';' ==> Segments(q, i) == [""] + Segments(q, i + 1)
    ensures i < |q| && q[i] != ';' ==> Segments(q, i) == Glue(q[i..RegionEnd(q, i)], Segments(q, RegionEnd(q, i)))
  {
    hide FirstCut, RegionEnd;
    if i == |q| {
      CutAtEnd(q, Plain);
    } else if q[i] == ';' {
      CutUnfold(q, i, Plain);
      assert q[i..i] == "";
    } else {
      var e := RegionEnd(q, i);
      CutByRegion(q, i);
      var c := FirstCut(q, e, Plain);
      assert q[i..c] == q[i..e] + q[e..c];
    }
  }

  // ---------------------------------------------------------------- token by token

  /** The texts between the semicolon tokens. */
  function TokenSegments(ts: seq<L.Token>): (r: seq<string>)
    ensures |r| > 0
  {
    if ts == [] then [""]
    else if ts[0] == L.Token(L.Symbol, ";") then [""] + TokenSegments(ts[1..])
    else Glue(ts[0].text, TokenSegments(ts[1..]))
  }

  /** The scan that stands at i at top level cuts nothing before e and stands at top level again there. */
  predicate Passes(q: string, i: nat, e: nat) {
    i <= e <= |q| && FirstCut(q, i, Plain) == FirstCut(q, e, Plain)
  }

  /** The scan takes the character for nothing special. */
  predicate Unmarked(q: string, k: nat)
    requires k < |q|
  {
    TagEnd(q, k) == k && q[k] != '\'' && q[k] != '"' && q[k] != ';' && !Pair(q, k, '-', '-') && !Pair(q, k, '/', '*')
  }

  lemma {:induction false} UnmarkedPass(q: string, i: nat, e: nat)
    requires i <= e <= |q| && forall k :: i <= k < e ==> Unmarked(q, k)
    ensures Passes(q, i, e)
    decreases e - i
  {
    hide FirstCut, Unmarked;
    if i < e {
      UnmarkedRegion(q, i);
      CutByRegion(q, i);
      UnmarkedPass(q, i + 1, e);
    }
  }

  lemma UnmarkedRegion(q: string, i: nat)
    requires i < |q| && Unmarked(q, i)
    ensures RegionEnd(q, i) == i + 1 && q[i] != ';'
  {
    hide TagEnd, DollarEnd;
  }

  lemma WhitePass(q: string, i: nat, e: nat)
    requires i <= e <= |q| && AllWhite(q, i, e)
    ensures Passes(q, i, e)
  {
    hide FirstCut;
    UnmarkedPass(q, i, e);
  }

  /** Each part of a constant ends where a plain one would, and only white space stands between them. */
  predicate PartsAlike(q: string, i: nat, k: L.Kind)
    requires i <= |q|
    decreases |q| - i
  {
    var e := L.PartEnd(q, i, k);
    && e == L.PartEnd(q, i, L.Str)
    && (e >= 0 && L.Continues(q, e) ==> L.SepEnd(q, e) == LeftEdge(q, e) && PartsAlike(q, L.SepEnd(q, e) + 1, k))
  }

  lemma {:induction false} ConstRegion(q: string, i: nat, k: L.Kind)
    requires i <= |q| && PartsAlike(q, i, k)
    ensures var e := L.ConstEnd(q, i, k); FirstCut(q, i, Single) == if e < 0 then |q| else FirstCut(q, e, Plain)
    decreases |q| - i
  {
    hide FirstCut, Quote, L.PartEnd, L.SepEnd, LeftEdge;
    SingleRegion(q, i);
    L.PartIsQuote(q, i);
    var e := L.PartEnd(q, i, k);
    if e >= 0 && L.Continues(q, e) {
      var w := L.SepEnd(q, e);
      WhitePass(q, e, w);
      QuoteOpens(q, w);
      ConstRegion(q, w + 1, k);
    }
  }

  lemma QuoteOpens(q: string, w: nat)
    requires w < |q| && q[w] == '\''
    ensures FirstCut(q, w, Plain) == FirstCut(q, w + 1, Single)
  {
    hide FirstCut, DollarEnd, LineEnd, BlockEnd;
    CutUnfold(q, w, Plain);
  }

  lemma {:induction false} IdentRegion(q: string, i: nat)
    requires i <= |q|
    ensures var e := L.IdentClose(q, i); FirstCut(q, i, Double) == if e < 0 then |q| else FirstCut(q, e, Plain)
    decreases |q| - i
  {
    hide FirstCut;
    if i == |q| {
      CutAtEnd(q, Double);
    } else {
      CutUnfold(q, i, Double);
      assert Lexeme(q, i, Double) == if q[i] == '"' then (i + 1, Plain) else (i + 1, Double);
      if q[i] != '"' {
        IdentRegion(q, i + 1);
      } else if i + 1 < |q| && q[i + 1] == '"' {
        DoubleOpens(q, i + 1);
        IdentRegion(q, i + 2);
      }
    }
  }

  lemma DoubleOpens(q: string, w: nat)
    requires w < |q| && q[w] == '"'
    ensures FirstCut(q, w, Plain) == FirstCut(q, w + 1, Double)
  {
    hide FirstCut, DollarEnd, LineEnd, BlockEnd;
    CutUnfold(q, w, Plain);
  }

  // ---------------------------------------------------------------- the tokens on which both agree

  lemma StopBeforeLine(q: string, i: nat)
    requires i <= |q|
    ensures L.CommentStop(q, i) <= NextLine(q, i)
  {
    var f := Find(q, "\n", i);
    if f >= 0 {
      OneChar(q, '\n', f);
    }
  }

  /** A line comment that the server ends where the scan does, up to white space. */
  predicate CommentAlike(q: string, i: nat)
    requires i <= |q|
  {
    forall k :: L.CommentStop(q, i) <= k < NextLine(q, i) ==> IsWhite(q[k])
  }

  /** A word without a dollar tag in it, or a prefix of a constant or an identifier. */
  predicate WordAlike(q: string, i: nat)
    requires i < |q| && IsTagStart(q[i])
  {
    var w := L.WordEnd(q, i);
    if w == i + 1 && w < |q| && q[w] == '\'' && L.IsE(q[i]) then PartsAlike(q, w + 1, L.EscapeStr)
    else if w == i + 1 && w < |q| && q[w] == '\'' && L.IsBX(q[i]) then PartsAlike(q, w + 1, L.BitStr)
    else if w == i + 1 && L.IsU(q[i]) && Pair(q, w, '&', '\'') then PartsAlike(q, w + 2, L.UnicodeStr)
    else if w == i + 1 && L.IsU(q[i]) && Pair(q, w, '&', '"') then true
    else forall k :: i <= k < w ==> TagEnd(q, k) == k
  }

  /** The scan and the server read the token at i alike: line comments end with a line feed, constants
      hold no escaped quote and no comment between their parts, and words hold no dollar tag. */
  predicate Alike(q: string, i: nat)
    requires i < |q|
  {
    if Pair(q, i, '-', '-') then CommentAlike(q, i + 2)
    else if q[i] == '\'' then PartsAlike(q, i + 1, L.Str)
    else IsTagStart(q[i]) ==> WordAlike(q, i)
  }

  predicate AllAlike(q: string, i: nat)
    requires i <= |q|
    decreases |q| - i
  {
    i < |q| ==> Alike(q, i) && AllAlike(q, L.Read(q, i).end)
  }

  /** The lexer's result for a constant or an identifier that the scan reads alike. */
  lemma EndingPass(q: string, i: nat, a: nat, m: Mode, k: L.Kind, e: int)
    requires i <= a <= |q| && e <= |q| && (e >= 0 ==> i <= e)
    requires FirstCut(q, i, Plain) == FirstCut(q, a, m)
    requires FirstCut(q, a, m) == if e < 0 then |q| else FirstCut(q, e, Plain)
    ensures Passes(q, i, L.Ending(q, k, e).end)
  {
    hide FirstCut;
    CutAtEnd(q, Plain);
  }

  lemma CommentPass(q: string, i: nat)
    requires Pair(q, i, '-', '-') && CommentAlike(q, i + 2)
    ensures Passes(q, i, L.CommentStop(q, i + 2))
  {
    hide FirstCut, NextLine, TagEnd;
    var stop, e := L.CommentStop(q, i + 2), NextLine(q, i + 2);
    StopBeforeLine(q, i + 2);
    WhitePass(q, stop, e);
    assert TagEnd(q, i) == i;
    CutByRegion(q, i);
  }

  lemma ConstPass(q: string, i: nat, a: nat, k: L.Kind)
    requires i < a <= |q| && q[a - 1] == '\'' && PartsAlike(q, a, k)
    requires forall j :: i <= j < a - 1 ==> Unmarked(q, j)
    ensures Passes(q, i, L.Ending(q, k, L.ConstEnd(q, a, k)).end)
  {
    hide FirstCut, PartsAlike, L.ConstEnd, Unmarked;
    UnmarkedPass(q, i, a - 1);
    QuoteOpens(q, a - 1);
    ConstRegion(q, a, k);
    EndingPass(q, i, a, Single, k, L.ConstEnd(q, a, k));
  }

  lemma IdentPass(q: string, i: nat, a: nat)
    requires i < a <= |q| && q[a - 1] == '"'
    requires forall j :: i <= j < a - 1 ==> Unmarked(q, j)
    ensures Passes(q, i, L.Ending(q, L.Ident, L.IdentClose(q, a)).end)
  {
    hide FirstCut, L.IdentClose, Unmarked;
    UnmarkedPass(q, i, a - 1);
    DoubleOpens(q, a - 1);
    IdentRegion(q, a);
    EndingPass(q, i, a, Double, L.Ident, L.IdentClose(q, a));
  }

  lemma WordChars(q: string, i: nat, e: nat)
    requires i <= e <= |q| && forall k :: i <= k < e ==> L.IsWordChar(q[k]) && TagEnd(q, k) == k
    ensures forall k :: i <= k < e ==> Unmarked(q, k)
  {}

  lemma NoTagAt(q: string, k: nat)
    requires k < |q| && q[k] != '$'
    ensures TagEnd(q, k) == k
  {}

  lemma WordPass(q: string, i: nat)
    requires i < |q| && IsTagStart(q[i]) && WordAlike(q, i)
    ensures Passes(q, i, L.ReadWord(q, i).end)
  {
    hide FirstCut, PartsAlike, L.ConstEnd, L.IdentClose, L.Ending, TagEnd;
    var w := L.WordEnd(q, i);
    NoTagAt(q, i);
    WordChars(q, i, i + 1);
    if w == i + 1 && w < |q| && q[w] == '\'' && L.IsE(q[i]) {
      ConstPass(q, i, w + 1, L.EscapeStr);
    } else if w == i + 1 && w < |q| && q[w] == '\'' && L.IsBX(q[i]) {
      ConstPass(q, i, w + 1, L.BitStr);
    } else if w == i + 1 && L.IsU(q[i]) && Pair(q, w, '&', '\'') {
      NoTagAt(q, w);
      ConstPass(q, i, w + 2, L.UnicodeStr);
    } else if w == i + 1 && L.IsU(q[i]) && Pair(q, w, '&', '"') {
      NoTagAt(q, w);
      IdentPass(q, i, w + 2);
    } else {
      WordChars(q, i, w);
      UnmarkedPass(q, i, w);
    }
  }

  lemma DollarPass(q: string, i: nat)
    requires i < |q| && q[i] == '$'
    ensures Passes(q, i, L.ReadDollar(q, i).end)
  {
    hide FirstCut, DigitsEnd, Closing;
    if i + 1 < |q| && IsDigit(q[i + 1]) {
      UnmarkedPass(q, i, DigitsEnd(q, i + 1));
    } else if TagEnd(q, i) > i {
      CutByRegion(q, i);
    } else {
      UnmarkedPass(q, i, i + 1);
    }
  }

  lemma BlockPass(q: string, i: nat)
    requires Pair(q, i, '/', '*')
    ensures Passes(q, i, L.Ending(q, L.Comment, L.BlockClose(q, i + 2, 1)).end)
  {
    hide FirstCut, L.BlockClose, TagEnd;
    NoTagAt(q, i);
    CutByRegion(q, i);
  }

  lemma NumeralPass(q: string, i: nat)
    requires i < |q| && IsDigit(q[i])
    ensures i < TagRun(q, i) && Passes(q, i, TagRun(q, i))
  {
    hide FirstCut, TagRun;
    forall k | i <= k < TagRun(q, i) ensures Unmarked(q, k) {
      NoTagAt(q, k);
    }
    UnmarkedPass(q, i, TagRun(q, i));
  }

  /** A token on which both agree is passed over, unless it is a semicolon. */
  lemma TokenPass(q: string, i: nat)
    requires i < |q| && Alike(q, i) && q[i] != ';'
    ensures Passes(q, i, L.Read(q, i).end)
  {
    hide FirstCut, CommentAlike, PartsAlike, WordAlike, L.ReadWord, L.ReadDollar, L.Ending, TagRun, L.CommentStop;
    var c := q[i];
    if IsWhite(c) {
      WhitePass(q, i, i + 1);
    } else if Pair(q, i, '-', '-') {
      CommentPass(q, i);
    } else if Pair(q, i, '/', '*') {
      BlockPass(q, i);
    } else if c == '"' {
      IdentPass(q, i, i + 1);
    } else if c == '\'' {
      ConstPass(q, i, i + 1, L.Str);
    } else if IsTagStart(c) {
      WordPass(q, i);
    } else if IsDigit(c) {
      NumeralPass(q, i);
    } else if c == '$' {
      DollarPass(q, i);
    } else {
      NoTagAt(q, i);
      UnmarkedPass(q, i, i + 1);
    }
  }

  lemma SemicolonToken(q: string, i: nat)
    requires i < |q|
    ensures L.Token(L.Read(q, i).kind, q[i..L.Read(q, i).end]) == L.Token(L.Symbol, ";") <==> q[i] == ';'
  {
    hide L.ReadWord, L.ReadDollar, TagRun, L.CommentStop, L.ConstEnd, L.IdentClose, L.BlockClose;
    var r := L.Read(q, i);
    assert q[i..r.end][0] == q[i];
    if q[i] == ';' {
      assert q[i..i + 1] == ";";
    }
  }

  lemma PassSegments(q: string, i: nat, e: nat)
    requires Passes(q, i, e)
    ensures Segments(q, i) == Glue(q[i..e], Segments(q, e))
  {
    hide FirstCut;
    var c := FirstCut(q, e, Plain);
    assert q[i..c] == q[i..e] + q[e..c];
  }

  lemma {:induction false} SegmentsByToken(q: string, i: nat)
    requires i <= |q| && AllAlike(q, i)
    ensures Segments(q, i) == TokenSegments(L.Lex(q, i))
    decreases |q| - i
  {
    hide FirstCut, Segments, Alike, L.Read, RegionEnd;
    SegmentsByRegion(q, i);
    if i < |q| {
      var r := L.Read(q, i);
      var ts := L.Lex(q, i);
      SegmentsByToken(q, r.end);
      SemicolonToken(q, i);
      assert ts[1..] == L.Lex(q, r.end);
      if q[i] == ';' {
        assert r.end == i + 1;
      } else {
        TokenPass(q, i);
        PassSegments(q, i, r.end);
      }
    }
  }

  /** On every text whose tokens the scan and the server read alike, the query is cut exactly at its
      semicolon tokens: the segments are the texts between them. */
  lemma CutsAreSemicolonTokens(q: string)
    requires AllAlike(q, 0)
    ensures Segments(q, 0) == TokenSegments(L.Lex(q, 0))
    ensures Split(q) == Kept(TokenSegments(L.Lex(q, 0)))
  {
    SegmentsByToken(q, 0);
  }

  // ---------------------------------------------------------------- where they differ

  /** The server does not cut the query where the scan does. */
  predicate Differs(q: string) {
    Segments(q, 0) != TokenSegments(L.Lex(q, 0))
  }

  lemma CutSegments(q: string)
    ensures FirstCut(q, 0, Plain) == |q| ==> |Segments(q, 0)| == 1
    ensures FirstCut(q, 0, Plain) < |q| ==> |Segments(q, 0)| > 1
  {
    hide FirstCut;
  }

  lemma TokenCount(q: string, i: nat)
    requires i < |q|
    ensures |TokenSegments(L.Lex(q, i))| == |TokenSegments(L.Lex(q, L.Read(q, i).end))| + if q[i] == ';' then 1 else 0
  {
    hide L.Read;
    SemicolonToken(q, i);
    assert L.Lex(q, i)[1..] == L.Lex(q, L.Read(q, i).end);
  }

  lemma NoTokens(q: string)
    ensures |TokenSegments(L.Lex(q, |q|))| == 1
  {}

  lemma TwoTokens(q: string, e: nat)
    requires 0 < e && |q| == e + 1 && q[e] == ';' && L.Read(q, 0).end == e && q[0] != ';'
    ensures |TokenSegments(L.Lex(q, 0))| == 2
  {
    hide L.Read, L.Lex, TokenSegments;
    TokenCount(q, 0);
    TokenCount(q, e);
    assert L.Read(q, e).end == e + 1;
    NoTokens(q);
  }

  lemma OneToken(q: string)
    requires q != "" && L.Read(q, 0).end == |q| && q[0] != ';'
    ensures |TokenSegments(L.Lex(q, 0))| == 1
  {
    hide L.Read, L.Lex, TokenSegments;
    TokenCount(q, 0);
    NoTokens(q);
  }

  /** Dollar signs at the end of a word open a dollar quote for the scan, which hides what follows. */
  lemma WordHidesSemicolon(w: string)
    requires w != "" && IsTagStart(w[0]) && forall k :: 0 <= k < |w| ==> IsTagChar(w[k])
    ensures Differs(w + "$$;")
  {
    hide FirstCut, L.Lex, TokenSegments, Segments, DollarEnd;
    var q, n := w + "$$;", |w|;
    assert forall k :: 0 <= k < n ==> q[k] == w[k];
    assert q[n] == '$' && q[n + 1] == '$' && q[n + 2] == ';';
    assert L.Read(q, 0).end == n + 2 by {
      WordRuns(q, 0, n + 2);
    }
    TwoTokens(q, n + 2);
    forall k | 0 <= k < n ensures Unmarked(q, k) {
      NoTagAt(q, k);
    }
    UnmarkedPass(q, 0, n);
    assert TagEnd(q, n) == n + 2;
    assert DollarEnd(q, n) == |q| by {
      NoSecondTag(q, n);
    }
    CutByRegion(q, n);
    CutAtEnd(q, Plain);
    CutSegments(q);
  }

  lemma {:induction false} WordRuns(q: string, i: nat, e: nat)
    requires i <= e < |q| && (forall k :: i <= k < e ==> L.IsWordChar(q[k])) && !L.IsWordChar(q[e])
    ensures L.WordEnd(q, i) == e
    decreases e - i
  {
    if i < e {
      WordRuns(q, i + 1, e);
    }
  }

  lemma NoSecondTag(q: string, n: nat)
    requires |q| == n + 3 && q[n] == '$' && q[n + 1] == '$' && q[n + 2] == ';'
    ensures TagEnd(q, n) == n + 2 && DollarEnd(q, n) == |q|
  {
    assert Find(q, q[n..n + 2], n + 2) < 0;
  }

  /** A quote behind a backslash ends the constant for the scan. */
  lemma EscapedQuoteCuts()
    ensures Differs("E'\\';'")
  {
    hide FirstCut, L.Lex, TokenSegments, Segments;
    var q := "E'\\';'";
    assert |q| == 6 && q[0] == 'E' && q[1] == '\'' && q[2] == '\\' && q[3] == '\'' && q[4] == ';' && q[5] == '\'';
    assert L.WordEnd(q, 0) == 1;
    assert L.PartEnd(q, 5, L.EscapeStr) == 6;
    assert L.PartEnd(q, 4, L.EscapeStr) == 6;
    assert L.PartEnd(q, 2, L.EscapeStr) == 6;
    assert L.SepEnd(q, 6) == 6;
    assert L.ConstEnd(q, 2, L.EscapeStr) == 6;
    OneToken(q);
    NoTagAt(q, 0);
    UnmarkedPass(q, 0, 1);
    QuoteUnfold(q, 2);
    QuoteUnfold(q, 3);
    CutByRegion(q, 1);
    CutUnfold(q, 4, Plain);
    CutSegments(q);
  }

  /** A carriage return ends a line comment for the server, not for the scan. */
  lemma CarriageReturnHides()
    ensures Differs("--\r;")
  {
    hide FirstCut, L.Lex, TokenSegments, Segments;
    var q := "--\r;";
    assert |q| == 4 && q[0] == '-' && q[1] == '-' && q[2] == '\r' && q[3] == ';';
    assert L.CommentStop(q, 2) == 2;
    CommentTokens(q);
    assert Find(q, "\n", 2) < 0 by {
      forall k | 2 <= k < 4 ensures !OccursAt(q, "\n", k) {
        OneChar(q, '\n', k);
      }
    }
    CutByRegion(q, 0);
    CutAtEnd(q, Plain);
    CutSegments(q);
  }

  lemma CommentTokens(q: string)
    requires |q| == 4 && q[0] == '-' && q[1] == '-' && q[2] == '\r' && q[3] == ';' && L.CommentStop(q, 2) == 2
    ensures |TokenSegments(L.Lex(q, 0))| == 2
  {
    hide L.Lex, TokenSegments;
    assert L.Read(q, 0).end == 2 && L.Read(q, 2).end == 3 && L.Read(q, 3).end == 4;
    TokenCount(q, 0);
    TokenCount(q, 2);
    TokenCount(q, 3);
    NoTokens(q);
  }
}
