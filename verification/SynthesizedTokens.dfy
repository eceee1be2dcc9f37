/** Placeholder substitution preserves token structure exactly when a condition on the template
    holds: the query written for a template reads as the template's own tokens, with one string
    constant for each parameter (internal/proxy/synthesizer.go, internal/protocol/literal.go). */
module SynthesizedTokens {
  import opened SqlText
  import opened SqlLexer
  import opened LexerCopies
  import opened Synthesizer

  // ---------------------------------------------------------------- what the template asks for

  /** A parameter for which there is a value. */
  predicate InRange(k: Kind, m: nat) {
    k.Param? && 1 <= k.n <= m
  }

  predicate IsParam(q: string, m: nat, i: nat)
    requires i < |q|
  {
    InRange(Read(q, i).kind, m)
  }

  /** The template's tokens, with one string constant for each parameter that has a value. */
  function Expected(q: string, params: seq<string>, i: nat): seq<Token>
    requires i <= |q|
    decreases |q| - i
  {
    if i == |q| then []
    else
      var r := Read(q, i);
      [if InRange(r.kind, |params|) then Token(Str, Literal(params[r.kind.n - 1])) else Token(r.kind, q[i..r.end])]
      + Expected(q, params, r.end)
  }

  /** The text of these tokens. */
  function Rep(q: string, lits: seq<string>, i: nat): string
    requires i <= |q|
    decreases |q| - i
  {
    if i == |q| then ""
    else
      var r := Read(q, i);
      (if InRange(r.kind, |lits|) then lits[r.kind.n - 1] else q[i..r.end]) + Rep(q, lits, r.end)
  }

  lemma {:induction false} ExpectedText(q: string, params: seq<string>, i: nat)
    requires i <= |q|
    ensures Texts(Expected(q, params, i)) == Rep(q, Literals(params), i)
    decreases |q| - i
  {
    hide Read, Literal;
    if i < |q| {
      ExpectedText(q, params, Read(q, i).end);
      assert Expected(q, params, i)[1..] == Expected(q, params, Read(q, i).end);
    }
  }

  /** Without parameters these are the template's own tokens. */
  lemma {:induction false} TemplateReads(q: string, i: nat)
    requires i <= |q|
    ensures Expected(q, [], i) == Lex(q, i)
    decreases |q| - i
  {
    hide Read;
    if i < |q| {
      TemplateReads(q, Read(q, i).end);
    }
  }

  // ---------------------------------------------------------------- where string constants meet

  /** What is written for the token at j starts with a quote. */
  predicate WillQuote(q: string, m: nat, j: nat) {
    j < |q| && (q[j] == '\'' || IsParam(q, m, j))
  }

  /** The token at i would be read together with what is written after it: a constant or a parameter
      that touches a quote or has only white space and line comments with a line break in front of
      one, or a word U with an ampersand and a quote behind it. */
  predicate Meets(q: string, m: nat, i: nat)
    requires i < |q|
  {
    var r := Read(q, i);
    var k := if InRange(r.kind, m) then Str else r.kind;
    var w := SepEnd(q, r.end);
    if IsConstant(k) then (Doubles(k) && WillQuote(q, m, r.end)) || (Break(q, r.end, w) && WillQuote(q, m, w))
    else k.Word? && r.end == i + 1 && IsU(q[i]) && r.end < |q| && q[r.end] == '&' && WillQuote(q, m, r.end + 1)
  }

  predicate Apart(q: string, m: nat, i: nat)
    requires i <= |q|
    decreases |q| - i
  {
    i < |q| ==> !Meets(q, m, i) && Apart(q, m, Read(q, i).end)
  }

  // ---------------------------------------------------------------- walking along template and text

  /** Every literal starts with a quote. */
  predicate Quoting(lits: seq<string>) {
    forall k :: 0 <= k < |lits| ==> lits[k] != "" && lits[k][0] == '\''
  }

  lemma LiteralsQuote(params: seq<string>)
    ensures Quoting(Literals(params))
  {}

  /** t from o on is what is written for the template from i on. */
  predicate Along(q: string, lits: seq<string>, i: nat, t: string, o: nat) {
    i <= |q| && o <= |t| && t[o..] == Rep(q, lits, i)
  }

  /** What is written starts with the template's character, or with a quote for a parameter. */
  lemma Head(q: string, lits: seq<string>, i: nat, t: string, o: nat)
    requires Along(q, lits, i, t, o) && Quoting(lits)
    ensures o == |t| <==> i == |q|
    ensures i < |q| ==> t[o] == if IsParam(q, |lits|, i) then '\'' else q[i]
  {
    hide Read;
    if i < |q| {
      var r := Read(q, i);
      var u := if InRange(r.kind, |lits|) then lits[r.kind.n - 1] else q[i..r.end];
      assert Rep(q, lits, i) == u + Rep(q, lits, r.end);
      assert t[o] == t[o..][0] == u[0];
    }
  }

  /** A token that is not replaced is copied. */
  lemma Copied(q: string, lits: seq<string>, i: nat, t: string, o: nat)
    requires Along(q, lits, i, t, o) && i < |q| && !IsParam(q, |lits|, i)
    ensures var e := Read(q, i).end; Same(q, i, t, o, e - i) && Along(q, lits, e, t, o + (e - i))
  {
    hide Read;
    var e := Read(q, i).end;
    var u := q[i..e];
    assert t[o..] == u + Rep(q, lits, e);
    assert |t| == o + |u| + |Rep(q, lits, e)|;
    forall k | i <= k < e ensures q[k] == t[k - i + o] {
      assert t[o..][k - i] == u[k - i];
    }
    assert t[o + (e - i)..] == t[o..][e - i..] == Rep(q, lits, e);
  }

  /** A parameter is replaced by its literal. */
  lemma Inserted(q: string, lits: seq<string>, i: nat, t: string, o: nat)
    requires Along(q, lits, i, t, o) && i < |q| && IsParam(q, |lits|, i)
    ensures var r := Read(q, i); var u := lits[r.kind.n - 1];
            Same(u, 0, t, o, |u|) && Along(q, lits, r.end, t, o + |u|)
  {
    hide Read;
    var r := Read(q, i);
    var u := lits[r.kind.n - 1];
    assert t[o..] == u + Rep(q, lits, r.end);
    assert |t| == o + |u| + |Rep(q, lits, r.end)|;
    forall k | 0 <= k < |u| ensures u[k] == t[k + o] {
      assert t[o..][k] == u[k];
    }
    assert t[o + |u|..] == t[o..][|u|..] == Rep(q, lits, r.end);
  }

  /** The character after the first of a copied token. */
  lemma Second(q: string, lits: seq<string>, i: nat, t: string, o: nat)
    requires Along(q, lits, i, t, o) && Quoting(lits) && i < |q| && !IsParam(q, |lits|, i)
    ensures o < |t| && (o + 1 == |t| <==> i + 1 == |q|)
    ensures i + 1 < |q| ==>
              t[o + 1] == if Read(q, i).end == i + 1 && IsParam(q, |lits|, i + 1) then '\'' else q[i + 1]
  {
    hide Read, Rep, Along;
    var e := Read(q, i).end;
    AlongBounds(q, lits, i, t, o);
    Copied(q, lits, i, t, o);
    AlongBounds(q, lits, e, t, o + (e - i));
    if e == i + 1 {
      Head(q, lits, e, t, o + 1);
    } else {
      assert q[i + 1] == t[o + 1];
    }
  }

  lemma AlongBounds(q: string, lits: seq<string>, i: nat, t: string, o: nat)
    requires Along(q, lits, i, t, o)
    ensures i <= |q| && o <= |t|
  {}

  lemma ParamIsDollar(q: string, m: nat, i: nat)
    requires i < |q| && Read(q, i).kind.Param?
    ensures q[i] == '$' && Read(q, i) == ReadDollar(q, i)
  {
    hide ConstEnd, IdentClose, BlockClose, WordEnd, CommentStop, TagEnd, DollarEnd, Closing;
  }

  // ---------------------------------------------------------------- separators

  /** White space and line comments are written as they stand, and end where they did. */
  lemma {:induction false} SepKept(q: string, lits: seq<string>, e: nat, t: string, o: nat)
    requires Along(q, lits, e, t, o) && Quoting(lits)
    ensures var w := SepEnd(q, e); var w' := o + (w - e);
            Same(q, e, t, o, w - e) && Along(q, lits, w, t, w') && SepEnd(t, o) == w'
    decreases |q| - e
  {
    hide Along, Same, CommentStop, SepEnd, Read;
    AlongBounds(q, lits, e, t, o);
    SepUnfold(q, e);
    if e < |q| && IsWhite(q[e]) {
      WhiteToken(q, e);
      Head(q, lits, e, t, o);
      Copied(q, lits, e, t, o);
      AlongBounds(q, lits, e + 1, t, o + 1);
      SepUnfold(t, o);
      SepKept(q, lits, e + 1, t, o + 1);
      SameJoin(q, e, t, o, 1, SepEnd(q, e) - e);
    } else if e < |q| && Pair(q, e, '-', '-') {
      SepComment(q, lits, e, t, o);
      var r := CommentStop(q, e + 2);
      SepKept(q, lits, r, t, o + (r - e));
      SameJoin(q, e, t, o, r - e, SepEnd(q, e) - e);
    } else {
      SameNone(q, e, t, o);
      if e < |q| {
        NoSepStart(q, lits, e, t, o);
      } else {
        Head(q, lits, e, t, o);
        SepUnfold(t, o);
      }
    }
  }

  lemma SepComment(q: string, lits: seq<string>, e: nat, t: string, o: nat)
    requires Along(q, lits, e, t, o) && Quoting(lits) && Pair(q, e, '-', '-') && !IsWhite(q[e])
    ensures var r := CommentStop(q, e + 2); var r' := o + (r - e);
            && Same(q, e, t, o, r - e) && r' <= |t| && Along(q, lits, r, t, r')
            && SepEnd(t, o) == SepEnd(t, r')
  {
    hide Along, Same, CommentStop, SepEnd, Read;
    AlongBounds(q, lits, e, t, o);
    CommentToken(q, e);
    var r := CommentStop(q, e + 2);
    Copied(q, lits, e, t, o);
    AlongBounds(q, lits, r, t, o + (r - e));
    Head(q, lits, r, t, o + (r - e));
    BreakToken(q, |lits|, r);
    DashesKept(q, e, t, o);
    SepUnfold(t, o);
  }

  lemma WhiteToken(q: string, i: nat)
    requires i < |q| && IsWhite(q[i])
    ensures Read(q, i) == Lexeme(Space, i + 1)
  {}

  lemma CommentToken(q: string, i: nat)
    requires Pair(q, i, '-', '-') && !IsWhite(q[i])
    ensures Read(q, i) == Lexeme(Comment, CommentStop(q, i + 2))
  {}

  lemma BreakToken(q: string, m: nat, r: nat)
    requires r < |q| ==> IsBreak(q[r])
    ensures r < |q| ==> !IsParam(q, m, r)
  {
    if r < |q| {
      WhiteToken(q, r);
    }
  }

  lemma SameNone(q: string, i: nat, t: string, o: nat)
    requires i <= |q| && o <= |t|
    ensures Same(q, i, t, o, 0)
  {}

  lemma SameJoin(q: string, i: nat, t: string, o: nat, n: nat, m: nat)
    requires n <= m && Same(q, i, t, o, n) && Same(q, i + n, t, o + n, m - n)
    ensures Same(q, i, t, o, m)
  {
    forall k | i <= k < i + m ensures q[k] == t[k - i + o] {
      assert k >= i + n ==> q[k] == t[k - (i + n) + (o + n)];
    }
  }

  /** A line comment with its dashes. */
  lemma DashesKept(q: string, e: nat, t: string, o: nat)
    requires Pair(q, e, '-', '-')
    requires var r := CommentStop(q, e + 2);
             && Same(q, e, t, o, r - e)
             && (if r < |q| then o + (r - e) < |t| && t[o + (r - e)] == q[r] else o + (r - e) == |t|)
    ensures Pair(t, o, '-', '-') && !IsWhite(t[o])
    ensures CommentStop(t, o + 2) == o + (CommentStop(q, e + 2) - e)
  {
    hide CommentStop, Same;
    var r := CommentStop(q, e + 2);
    SameAt(q, e, t, o, r - e, e);
    SameAt(q, e, t, o, r - e, e + 1);
    SamePart(q, e, t, o, r - e, e + 2, r - (e + 2));
    StopSame(q, e + 2, t, o + 2);
  }

  /** Where no separator starts in the template, none starts in the text. */
  lemma NoSepStart(q: string, lits: seq<string>, e: nat, t: string, o: nat)
    requires Along(q, lits, e, t, o) && Quoting(lits) && e < |q| && !IsWhite(q[e]) && !Pair(q, e, '-', '-')
    ensures o < |t| && !IsWhite(t[o]) && !Pair(t, o, '-', '-') && SepEnd(t, o) == o
  {
    hide Along, Read;
    AlongBounds(q, lits, e, t, o);
    Head(q, lits, e, t, o);
    if !IsParam(q, |lits|, e) {
      Second(q, lits, e, t, o);
    }
  }

  /** Whether a constant that ends at a boundary goes on is told from the template. */
  lemma ContinuesKept(q: string, lits: seq<string>, e: nat, t: string, o: nat)
    requires Along(q, lits, e, t, o) && Quoting(lits)
    ensures Continues(t, o) <==> Break(q, e, SepEnd(q, e)) && WillQuote(q, |lits|, SepEnd(q, e))
  {
    hide Along, Same, SepEnd, Break, Read;
    AlongBounds(q, lits, e, t, o);
    var w := SepEnd(q, e);
    SepKept(q, lits, e, t, o);
    AlongBounds(q, lits, w, t, o + (w - e));
    BreakSame(q, e, t, o, w - e);
    Head(q, lits, w, t, o + (w - e));
    if w < |q| && IsParam(q, |lits|, w) {
      ParamIsDollar(q, |lits|, w);
    }
  }

  // ---------------------------------------------------------------- token by token

  /** The token at i is read again, as the same token, in what is written. */
  predicate Reread(q: string, i: nat, t: string, o: nat) {
    i < |q| && o < |t| && Read(t, o) == Lexeme(Read(q, i).kind, o + (Read(q, i).end - i))
  }

  /** The first character of a copied token, and what it may open, are as in the template. */
  lemma SameOpening(q: string, lits: seq<string>, i: nat, t: string, o: nat)
    requires Along(q, lits, i, t, o) && Quoting(lits) && i < |q| && !IsParam(q, |lits|, i)
    ensures o < |t| && t[o] == q[i]
    ensures Pair(t, o, '-', '-') == Pair(q, i, '-', '-') && Pair(t, o, '/', '*') == Pair(q, i, '/', '*')
  {
    hide Along, Read;
    AlongBounds(q, lits, i, t, o);
    Head(q, lits, i, t, o);
    Second(q, lits, i, t, o);
    if i + 1 < |q| && IsParam(q, |lits|, i + 1) {
      ParamIsDollar(q, |lits|, i + 1);
    }
  }

  /** A constant whose inside starts at j. */
  lemma ConstKept(q: string, lits: seq<string>, i: nat, j: nat, k: Kind, t: string, o: nat)
    requires Along(q, lits, i, t, o) && Quoting(lits) && i < j <= |q| && IsConstant(k) && i < |q|
    requires Read(q, i) == Ending(q, k, ConstEnd(q, j, k)) && j <= Read(q, i).end
    ensures o + (j - i) <= |t|
    ensures Ending(t, k, ConstEnd(t, o + (j - i), k)) == Lexeme(Read(q, i).kind, o + (Read(q, i).end - i)) <==>
              !Meets(q, |lits|, i)
  {
    hide Along, Read, Same, ConstEnd, Continues, SepEnd, Break;
    AlongBounds(q, lits, i, t, o);
    var r := Read(q, i);
    var e, o' := r.end, o + (r.end - i);
    Copied(q, lits, i, t, o);
    AlongBounds(q, lits, e, t, o');
    Head(q, lits, e, t, o');
    SamePart(q, i, t, o, e - i, j, e - j);
    ConstSame(q, j, k, t, o + (j - i), e - j);
    ContinuesKept(q, lits, e, t, o');
  }

  lemma KeptQuote(q: string, lits: seq<string>, i: nat, t: string, o: nat)
    requires Along(q, lits, i, t, o) && Quoting(lits) && i < |q| && q[i] == '\''
    ensures Reread(q, i, t, o) <==> !Meets(q, |lits|, i)
  {
    hide Along, Read, ConstEnd, Meets;
    QuoteToken(q, i);
    AlongBounds(q, lits, i, t, o);
    SameOpening(q, lits, i, t, o);
    QuoteToken(t, o);
    ConstKept(q, lits, i, i + 1, Str, t, o);
  }

  lemma QuoteToken(s: string, i: nat)
    requires i < |s| && s[i] == '\''
    ensures Read(s, i) == Ending(s, Str, ConstEnd(s, i + 1, Str)) && !Read(s, i).kind.Param?
  {
    hide ConstEnd;
  }

  /** Tokens that open with white space, dashes, a comment or a double quote. */
  lemma KeptOpening(q: string, lits: seq<string>, i: nat, t: string, o: nat)
    requires Along(q, lits, i, t, o) && Quoting(lits) && i < |q| && !IsParam(q, |lits|, i)
    requires IsWhite(q[i]) || Pair(q, i, '-', '-') || Pair(q, i, '/', '*') || q[i] == '"'
    ensures Reread(q, i, t, o) && !Meets(q, |lits|, i)
  {
    hide Along, Same, BlockClose, IdentClose, CommentStop;
    AlongBounds(q, lits, i, t, o);
    var e := Read(q, i).end;
    SameOpening(q, lits, i, t, o);
    Copied(q, lits, i, t, o);
    AlongBounds(q, lits, e, t, o + (e - i));
    Head(q, lits, e, t, o + (e - i));
    if IsWhite(q[i]) {
    } else if Pair(q, i, '-', '-') {
      BreakToken(q, |lits|, e);
      DashesKept(q, i, t, o);
    } else if Pair(q, i, '/', '*') {
      SamePart(q, i, t, o, e - i, i + 2, e - (i + 2));
      BlockSame(q, i + 2, 1, t, o + 2, e - (i + 2));
    } else {
      SamePart(q, i, t, o, e - i, i + 1, e - (i + 1));
      IdentAfter(q, i + 1);
      IdentSame(q, i + 1, t, o + 1, e - (i + 1));
    }
  }

  lemma {:induction false} IdentAfter(q: string, i: nat)
    requires i <= |q|
    ensures var e := IdentClose(q, i); 0 <= e < |q| ==> q[e] != '"'
    decreases |q| - i
  {
    if i < |q| {
      if q[i] != '"' {
        IdentAfter(q, i + 1);
      } else if i + 1 < |q| && q[i + 1] == '"' {
        IdentAfter(q, i + 2);
      }
    }
  }

  // ---------------------------------------------------------------- words and numbers

  lemma WordToken(s: string, i: nat)
    requires i < |s| && IsTagStart(s[i])
    ensures Read(s, i) == ReadWord(s, i) && WordEnd(s, i) <= Read(s, i).end && !Read(s, i).kind.Param?
  {
    hide ConstEnd, IdentClose;
  }

  /** A word ends where it did. */
  lemma WordEndKept(q: string, lits: seq<string>, i: nat, t: string, o: nat)
    requires Along(q, lits, i, t, o) && Quoting(lits) && i < |q| && IsTagStart(q[i])
    ensures o < |t| && t[o] == q[i] && WordEnd(t, o) == o + (WordEnd(q, i) - i)
  {
    hide Along, Read, ReadWord, Same, WordEnd, IsWordChar, IsTagStart;
    WordToken(q, i);
    AlongBounds(q, lits, i, t, o);
    SameOpening(q, lits, i, t, o);
    var e, w := Read(q, i).end, WordEnd(q, i);
    Copied(q, lits, i, t, o);
    AlongBounds(q, lits, e, t, o + (e - i));
    SameBounds(q, i, t, o, e - i);
    SamePart(q, i, t, o, e - i, i, w - i);
    if w < e {
      SameAt(q, i, t, o, e - i, w);
    } else {
      Head(q, lits, e, t, o + (e - i));
      WordEndsPlain(q, |lits|, i);
    }
    WordSame(q, i, t, o);
  }

  /** No parameter starts right behind a word. */
  lemma WordEndsPlain(q: string, m: nat, i: nat)
    requires i <= |q|
    ensures var w := WordEnd(q, i); w < |q| ==> !IsWordChar(q[w]) && !IsParam(q, m, w)
  {
    hide WordEnd, Read;
    var w := WordEnd(q, i);
    if w < |q| && IsParam(q, m, w) {
      ParamIsDollar(q, m, w);
    }
  }

  /** The character behind a one-letter word, and the one after an ampersand there. */
  lemma PrefixKept(q: string, lits: seq<string>, i: nat, t: string, o: nat)
    requires Along(q, lits, i, t, o) && Quoting(lits) && i < |q| && IsTagStart(q[i]) && WordEnd(q, i) == i + 1
    ensures o + 1 == |t| <==> i + 1 == |q|
    ensures i + 1 < |q| ==> t[o + 1] == q[i + 1]
    ensures i + 1 < |q| && q[i + 1] == '&' ==>
              && (o + 2 == |t| <==> i + 2 == |q|)
              && (i + 2 < |q| ==> t[o + 2] == if Read(q, i).end == i + 1 && IsParam(q, |lits|, i + 2) then '\'' else q[i + 2])
  {
    hide Along, Read, ReadWord, Same, WordEnd;
    WordToken(q, i);
    AlongBounds(q, lits, i, t, o);
    Second(q, lits, i, t, o);
    var e := Read(q, i).end;
    if i + 1 < |q| {
      assert q[i + 1] != '$';
      if IsParam(q, |lits|, i + 1) {
        ParamIsDollar(q, |lits|, i + 1);
      }
      if q[i + 1] == '&' {
        Copied(q, lits, i, t, o);
        if e == i + 1 {
          AndToken(q, i + 1);
          Second(q, lits, i + 1, t, o + 1);
        } else {
          PrefixLong(q, i);
          SameAt(q, i, t, o, e - i, i + 2);
        }
      }
    }
  }

  lemma AndToken(q: string, i: nat)
    requires i < |q| && q[i] == '&'
    ensures Read(q, i) == Lexeme(Symbol, i + 1)
  {}

  lemma PrefixLong(q: string, i: nat)
    requires i + 1 < |q| && IsTagStart(q[i]) && WordEnd(q, i) == i + 1 && q[i + 1] == '&' && Read(q, i).end > i + 1
    ensures i + 3 <= Read(q, i).end
  {
    hide ConstEnd, IdentClose, WordEnd;
  }

  lemma KeptWord(q: string, lits: seq<string>, i: nat, t: string, o: nat)
    requires Along(q, lits, i, t, o) && Quoting(lits) && i < |q| && IsTagStart(q[i])
    ensures Reread(q, i, t, o) <==> !Meets(q, |lits|, i)
  {
    WordToken(q, i);
    WordEndKept(q, lits, i, t, o);
    WordToken(t, o);
    if WordEnd(q, i) == i + 1 {
      PrefixKept(q, lits, i, t, o);
      KeptPrefix(q, lits, i, t, o);
    } else {
      hide Along, ConstEnd, IdentClose, Read, WordEnd;
    }
  }

  /** A one-letter word, or what it is the prefix of. */
  lemma KeptPrefix(q: string, lits: seq<string>, i: nat, t: string, o: nat)
    requires Along(q, lits, i, t, o) && Quoting(lits) && i < |q| && IsTagStart(q[i]) && WordEnd(q, i) == i + 1
    requires o < |t| && t[o] == q[i] && WordEnd(t, o) == o + 1
    requires Read(q, i) == ReadWord(q, i) && Read(t, o) == ReadWord(t, o) && !Read(q, i).kind.Param?
    requires o + 1 == |t| <==> i + 1 == |q|
    requires i + 1 < |q| ==> t[o + 1] == q[i + 1]
    requires i + 1 < |q| && q[i + 1] == '&' ==>
               && (o + 2 == |t| <==> i + 2 == |q|)
               && (i + 2 < |q| ==> t[o + 2] == if Read(q, i).end == i + 1 && IsParam(q, |lits|, i + 2) then '\'' else q[i + 2])
    ensures Reread(q, i, t, o) <==> !Meets(q, |lits|, i)
  {
    hide Along, ConstEnd, IdentClose, Read, WordEnd, SepEnd, Break, Meets;
    AlongBounds(q, lits, i, t, o);
    var next := i + 1 < |q| && q[i + 1] == '\'';
    if next && IsE(q[i]) {
      ConstKept(q, lits, i, i + 2, EscapeStr, t, o);
    } else if next && IsBX(q[i]) {
      ConstKept(q, lits, i, i + 2, BitStr, t, o);
    } else if IsU(q[i]) && Pair(q, i + 1, '&', '\'') {
      ConstKept(q, lits, i, i + 3, UnicodeStr, t, o);
    } else if IsU(q[i]) && Pair(q, i + 1, '&', '"') {
      UnicodeIdentKept(q, lits, i, t, o);
    } else {
      PlainWordKept(q, lits, i, t, o);
    }
  }

  lemma UnicodeIdentKept(q: string, lits: seq<string>, i: nat, t: string, o: nat)
    requires Along(q, lits, i, t, o) && Quoting(lits) && i + 3 <= |q| && IsU(q[i]) && Pair(q, i + 1, '&', '"')
    requires Read(q, i) == Ending(q, Ident, IdentClose(q, i + 3)) && o + 3 <= |t|
    ensures Ending(t, Ident, IdentClose(t, o + 3)) == Lexeme(Read(q, i).kind, o + (Read(q, i).end - i))
    ensures !Meets(q, |lits|, i)
  {
    hide Along, Read, Same, IdentClose, SepEnd, Break;
    AlongBounds(q, lits, i, t, o);
    var e := Read(q, i).end;
    Copied(q, lits, i, t, o);
    AlongBounds(q, lits, e, t, o + (e - i));
    Head(q, lits, e, t, o + (e - i));
    SamePart(q, i, t, o, e - i, i + 3, e - (i + 3));
    IdentAfter(q, i + 3);
    IdentSame(q, i + 3, t, o + 3, e - (i + 3));
  }

  /** A one-letter word that is no prefix in the template. */
  lemma PlainWordKept(q: string, lits: seq<string>, i: nat, t: string, o: nat)
    requires i < |q| && o < |t| && t[o] == q[i] && Read(q, i) == Lexeme(Word, i + 1) && WordEnd(t, o) == o + 1
    requires IsTagStart(q[i]) && Read(t, o) == ReadWord(t, o)
    requires !(i + 1 < |q| && q[i + 1] == '\'' && (IsE(q[i]) || IsBX(q[i])))
    requires !(IsU(q[i]) && (Pair(q, i + 1, '&', '\'') || Pair(q, i + 1, '&', '"')))
    requires o + 1 == |t| <==> i + 1 == |q|
    requires i + 1 < |q| ==> t[o + 1] == q[i + 1]
    requires i + 1 < |q| && q[i + 1] == '&' ==>
               && (o + 2 == |t| <==> i + 2 == |q|)
               && (i + 2 < |q| ==> t[o + 2] == if IsParam(q, |lits|, i + 2) then '\'' else q[i + 2])
    ensures Reread(q, i, t, o) <==> !Meets(q, |lits|, i)
  {
    hide ConstEnd, IdentClose, Read, WordEnd, SepEnd, Break;
  }

  lemma KeptNumeral(q: string, lits: seq<string>, i: nat, t: string, o: nat)
    requires Along(q, lits, i, t, o) && Quoting(lits) && i < |q| && IsDigit(q[i])
    ensures Reread(q, i, t, o) && !Meets(q, |lits|, i)
  {
    hide Along, Read, Same, TagRun, SepEnd, Break;
    NumeralToken(q, i);
    AlongBounds(q, lits, i, t, o);
    SameOpening(q, lits, i, t, o);
    NumeralToken(t, o);
    var e := TagRun(q, i);
    Copied(q, lits, i, t, o);
    AlongBounds(q, lits, e, t, o + (e - i));
    Head(q, lits, e, t, o + (e - i));
    RunSame(q, i, t, o);
  }

  lemma NumeralToken(s: string, i: nat)
    requires i < |s| && IsDigit(s[i])
    ensures Read(s, i) == Lexeme(Numeral, TagRun(s, i)) && TagRun(s, i) > i
  {}

  // ---------------------------------------------------------------- dollar signs and symbols

  lemma DollarToken(s: string, i: nat)
    requires i < |s| && s[i] == '$'
    ensures Read(s, i) == ReadDollar(s, i)
  {}

  lemma KeptDollar(q: string, lits: seq<string>, i: nat, t: string, o: nat)
    requires Along(q, lits, i, t, o) && Quoting(lits) && i < |q| && q[i] == '$' && !IsParam(q, |lits|, i)
    ensures Reread(q, i, t, o) && !Meets(q, |lits|, i)
  {
    hide Along, Read, SepEnd, Break;
    DollarToken(q, i);
    AlongBounds(q, lits, i, t, o);
    SameOpening(q, lits, i, t, o);
    DollarToken(t, o);
    DollarKind(q, i);
    if i + 1 < |q| && IsDigit(q[i + 1]) {
      NumberedKept(q, lits, i, t, o);
    } else if TagEnd(q, i) > i {
      TaggedKept(q, lits, i, t, o);
    } else {
      AloneKept(q, lits, i, t, o);
    }
  }

  lemma DollarKind(s: string, i: nat)
    requires i < |s| && s[i] == '$'
    ensures var k := ReadDollar(s, i).kind; k.Param? || k.DollarStr? || k.Open? || k.Symbol?
  {}

  /** A parameter without a value. */
  lemma NumberedKept(q: string, lits: seq<string>, i: nat, t: string, o: nat)
    requires Along(q, lits, i, t, o) && Quoting(lits) && i + 1 < |q| && q[i] == '$' && IsDigit(q[i + 1])
    requires !IsParam(q, |lits|, i) && Read(q, i) == ReadDollar(q, i) && o < |t| && t[o] == '$'
    ensures ReadDollar(t, o) == Lexeme(Read(q, i).kind, o + (Read(q, i).end - i))
  {
    hide Along, Read, Same, DigitsEnd, Number, TagEnd;
    AlongBounds(q, lits, i, t, o);
    var e := DigitsEnd(q, i + 1);
    DigitsMore(q, i + 1);
    Copied(q, lits, i, t, o);
    AlongBounds(q, lits, e, t, o + (e - i));
    SameBounds(q, i, t, o, e - i);
    Head(q, lits, e, t, o + (e - i));
    SamePart(q, i, t, o, e - i, i + 1, e - (i + 1));
    SameAt(q, i, t, o, e - i, i + 1);
    NumberSame(q, i + 1, e, t, o + 1);
    DigitsEndIs(t, o + 1, o + (e - i));
  }

  lemma DigitsMore(s: string, i: nat)
    requires i < |s| && IsDigit(s[i])
    ensures i < DigitsEnd(s, i)
  {}

  lemma TaggedKept(q: string, lits: seq<string>, i: nat, t: string, o: nat)
    requires Along(q, lits, i, t, o) && Quoting(lits) && i < |q| && q[i] == '$' && TagEnd(q, i) > i
    requires !(i + 1 < |q| && IsDigit(q[i + 1]))
    requires !IsParam(q, |lits|, i) && Read(q, i) == ReadDollar(q, i) && o < |t| && t[o] == '$'
    ensures ReadDollar(t, o) == Lexeme(Read(q, i).kind, o + (Read(q, i).end - i))
  {
    hide Along, Read, Same, DigitsEnd, Number, TagEnd, Closing, DollarEnd;
    AlongBounds(q, lits, i, t, o);
    var e := Read(q, i).end;
    Copied(q, lits, i, t, o);
    AlongBounds(q, lits, e, t, o + (e - i));
    SameBounds(q, i, t, o, e - i);
    Head(q, lits, e, t, o + (e - i));
    SameAt(q, i, t, o, e - i, i + 1);
    DollarSame(q, i, t, o, e - i);
  }

  /** A dollar sign that opens nothing. */
  lemma AloneKept(q: string, lits: seq<string>, i: nat, t: string, o: nat)
    requires Along(q, lits, i, t, o) && Quoting(lits) && i < |q| && q[i] == '$' && TagEnd(q, i) == i
    requires !(i + 1 < |q| && IsDigit(q[i + 1]))
    requires !IsParam(q, |lits|, i) && Read(q, i) == ReadDollar(q, i) && o < |t| && t[o] == '$'
    ensures ReadDollar(t, o) == Lexeme(Read(q, i).kind, o + (Read(q, i).end - i))
  {
    hide Along, Read, Same, DigitsEnd, Number, Closing, DollarEnd, TagRun;
    AlongBounds(q, lits, i, t, o);
    Second(q, lits, i, t, o);
    Copied(q, lits, i, t, o);
    if i + 1 < |q| {
      assert q[i + 1] != '$';
      if IsParam(q, |lits|, i + 1) {
        ParamIsDollar(q, |lits|, i + 1);
      }
      if IsTagStart(q[i + 1]) {
        TagRunKept(q, lits, i + 1, t, o + 1);
      }
    }
  }

  /** Behind a dollar sign that opens nothing, no dollar sign ends the run of tag characters. */
  lemma TagRunKept(q: string, lits: seq<string>, i: nat, t: string, o: nat)
    requires Along(q, lits, i, t, o) && Quoting(lits) && i < |q| && IsTagStart(q[i])
    requires var j := TagRun(q, i); j < |q| ==> q[j] != '$'
    ensures var j' := o + (TagRun(q, i) - i); TagRun(t, o) == j' <= |t| && (j' < |t| ==> t[j'] != '$')
  {
    hide Along, Read, ReadWord, Same, TagRun, WordEnd, IsWordChar, IsTagStart, IsTagChar;
    WordToken(q, i);
    AlongBounds(q, lits, i, t, o);
    var e, j := Read(q, i).end, TagRun(q, i);
    RunInWord(q, i);
    Copied(q, lits, i, t, o);
    AlongBounds(q, lits, e, t, o + (e - i));
    SameBounds(q, i, t, o, e - i);
    SamePart(q, i, t, o, e - i, i, j - i);
    if j < e {
      SameAt(q, i, t, o, e - i, j);
    } else {
      Head(q, lits, e, t, o + (e - i));
      QuoteNoTag();
    }
    RunSame(q, i, t, o);
  }

  lemma QuoteNoTag()
    ensures !IsTagChar('\'')
  {}

  lemma RunInWord(q: string, i: nat)
    requires i < |q| && IsTagStart(q[i])
    ensures TagRun(q, i) <= WordEnd(q, i)
  {
    hide WordEnd;
    RunIsWord(q, i, WordEnd(q, i));
  }

  /** A run of tag characters does not get past a character that is none. */
  lemma {:induction false} RunIsWord(q: string, i: nat, w: nat)
    requires i <= w <= |q| && (w < |q| ==> !IsWordChar(q[w]))
    ensures TagRun(q, i) <= w
    decreases w - i
  {
    if i < w {
      RunIsWord(q, i + 1, w);
    }
  }

  lemma KeptSymbol(q: string, lits: seq<string>, i: nat, t: string, o: nat)
    requires Along(q, lits, i, t, o) && Quoting(lits) && i < |q| && Read(q, i) == Lexeme(Symbol, i + 1) && q[i] != '$'
    ensures Reread(q, i, t, o) && !Meets(q, |lits|, i)
  {
    hide Along, ConstEnd, IdentClose, BlockClose, CommentStop, WordEnd, SepEnd, Break;
    AlongBounds(q, lits, i, t, o);
    SameOpening(q, lits, i, t, o);
  }

  /** Every token that is not replaced is read again as it was, unless it meets a quote. */
  lemma Kept(q: string, lits: seq<string>, i: nat, t: string, o: nat)
    requires Along(q, lits, i, t, o) && Quoting(lits) && i < |q| && !IsParam(q, |lits|, i)
    ensures Reread(q, i, t, o) <==> !Meets(q, |lits|, i)
  {
    hide Along, Reread, Meets, IsParam;
    if IsWhite(q[i]) || Pair(q, i, '-', '-') || Pair(q, i, '/', '*') || q[i] == '"' {
      KeptOpening(q, lits, i, t, o);
    } else if q[i] == '\'' {
      KeptQuote(q, lits, i, t, o);
    } else if IsTagStart(q[i]) {
      KeptWord(q, lits, i, t, o);
    } else if IsDigit(q[i]) {
      KeptNumeral(q, lits, i, t, o);
    } else if q[i] == '$' {
      KeptDollar(q, lits, i, t, o);
    } else {
      KeptSymbol(q, lits, i, t, o);
    }
  }

  // ---------------------------------------------------------------- parameters

  /** Inside a string constant, an escaped parameter reads as the parameter without NUL bytes. */
  lemma {:induction false} BodyReads(p: string, k: nat, t: string, j: nat)
    requires k <= |p| && Same(Body(p, k), 0, t, j, |Body(p, k)|)
    ensures Quote(t, j) == Pre(StripNul(p, k), Quote(t, j + |Body(p, k)|))
    decreases |p| - k
  {
    hide Quote;
    if k < |p| {
      var head := if p[k] == '\'' then "''" else if p[k] == '\0' then "" else [p[k]];
      var v := if p[k] == '\0' then "" else [p[k]];
      var tail := Body(p, k + 1);
      SameSplit(head, tail, t, j);
      BodyReads(p, k + 1, t, j + |head|);
      var rest := Quote(t, j + |Body(p, k)|);
      HeadReads(p[k], head, v, t, j);
      PreTwice(v, StripNul(p, k + 1), rest);
    } else {
      assert "" + Quote(t, j).value == Quote(t, j).value;
    }
  }

  lemma HeadReads(c: char, head: string, v: string, t: string, j: nat)
    requires head == if c == '\'' then "''" else if c == '\0' then "" else [c]
    requires v == if c == '\0' then "" else [c]
    requires Same(head, 0, t, j, |head|)
    ensures Quote(t, j) == Pre(v, Quote(t, j + |head|))
  {
    if c == '\'' {
      assert head[0] == t[j] && head[1] == t[j + 1];
    } else if c == '\0' {
      assert "" + Quote(t, j).value == Quote(t, j).value;
    } else {
      assert head[0] == t[j];
    }
  }

  lemma PreTwice(a: string, b: string, r: Region)
    ensures Pre(a, Pre(b, r)) == Pre(a + b, r)
  {
    assert a + (b + r.value) == (a + b) + r.value;
  }

  /** A literal on its own is one quoted region. */
  lemma LiteralQuote(p: string)
    ensures Quote(Literal(p), 1) == Region(|Literal(p)|, StripNul(p, 0), true)
  {
    hide Body, StripNul, Quote;
    var t := Literal(p);
    var c := |t| - 1;
    assert t[c] == '\'';
    forall k | 0 <= k < |Body(p, 0)| ensures Body(p, 0)[k] == t[k + 1] {}
    BodyReads(p, 0, t, 1);
    QuoteUnfold(t, c);
    assert StripNul(p, 0) + "" == StripNul(p, 0);
  }

  lemma NothingContinues(s: string)
    ensures !Continues(s, |s|)
  {}

  /** The token expected for a parameter is one string constant whose text is the parameter without
      NUL bytes. */
  lemma LiteralIsConstant(p: string)
    ensures ConstEnd(Literal(p), 1, Str) == |Literal(p)|
    ensures Lex(Literal(p), 0) == [Token(Str, Literal(p))] && Value(Token(Str, Literal(p))) == StripNul(p, 0)
  {
    hide Quote, PartEnd, Continues, ConstEnd, Literal, SepEnd;
    var t := Literal(p);
    LiteralStart(p);
    LiteralQuote(p);
    PartIsQuote(t, 1);
    NothingContinues(t);
    ConstUnfold(t, 1, Str);
    QuoteToken(t, 0);
    assert t[0..|t|] == t;
    assert Lex(t, |t|) == [];
  }

  lemma LiteralStart(p: string)
    ensures |Literal(p)| >= 2 && Literal(p)[0] == '\''
  {}

  /** A replaced parameter is read as one constant, unless it meets a quote. */
  lemma KeptParam(q: string, params: seq<string>, i: nat, t: string, o: nat)
    requires Along(q, Literals(params), i, t, o) && i < |q| && IsParam(q, |params|, i)
    ensures o < |t|
    ensures var lit := Literal(params[Read(q, i).kind.n - 1]);
            Read(t, o) == Lexeme(Str, o + |lit|) <==> !Meets(q, |params|, i)
  {
    hide Along, Read, Same, ConstEnd, Continues, SepEnd, Break, Literal, Literals;
    var lits := Literals(params);
    LiteralsQuote(params);
    AlongBounds(q, lits, i, t, o);
    var r := Read(q, i);
    var lit := Literal(params[r.kind.n - 1]);
    var o' := o + |lit|;
    assert lits[r.kind.n - 1] == lit;
    Inserted(q, lits, i, t, o);
    AlongBounds(q, lits, r.end, t, o');
    Head(q, lits, i, t, o);
    Head(q, lits, r.end, t, o');
    QuoteToken(t, o);
    LiteralStart(params[r.kind.n - 1]);
    LiteralIsConstant(params[r.kind.n - 1]);
    SamePart(lit, 0, t, o, |lit|, 1, |lit| - 1);
    ConstSame(lit, 1, Str, t, o + 1, |lit| - 1);
    ContinuesKept(q, lits, r.end, t, o');
  }

  // ---------------------------------------------------------------- the whole text

  /** With every parameter replaced, the text reads as expected if and only if nothing meets. */
  lemma {:induction false} RepReads(q: string, params: seq<string>, i: nat, t: string, o: nat)
    requires Along(q, Literals(params), i, t, o)
    ensures Lex(t, o) == Expected(q, params, i) <==> Apart(q, |params|, i)
    decreases |q| - i
  {
    hide Along, Read, Same, Meets, Literal, Literals, Lex, Expected;
    var lits := Literals(params);
    AlongBounds(q, lits, i, t, o);
    LiteralsQuote(params);
    Head(q, lits, i, t, o);
    if i == |q| {
      LexEnd(q, params, t);
    } else {
      var r := Read(q, i);
      if IsParam(q, |params|, i) {
        var lit := Literal(params[r.kind.n - 1]);
        assert lits[r.kind.n - 1] == lit;
        KeptParam(q, params, i, t, o);
        Inserted(q, lits, i, t, o);
        AlongBounds(q, lits, r.end, t, o + |lit|);
        RepReads(q, params, r.end, t, o + |lit|);
        LiteralText(lit, t, o);
        LexStep(q, params, i, t, o, Token(Str, lit));
      } else {
        Kept(q, lits, i, t, o);
        Copied(q, lits, i, t, o);
        AlongBounds(q, lits, r.end, t, o + (r.end - i));
        RepReads(q, params, r.end, t, o + (r.end - i));
        SameSlice(q, i, t, o, r.end - i);
        LexStep(q, params, i, t, o, Token(r.kind, q[i..r.end]));
      }
    }
  }

  lemma LiteralText(lit: string, t: string, o: nat)
    requires Same(lit, 0, t, o, |lit|)
    ensures t[o..o + |lit|] == lit
  {
    SameSlice(lit, 0, t, o, |lit|);
    assert lit[0..|lit|] == lit;
  }

  lemma LexEnd(q: string, params: seq<string>, t: string)
    ensures Lex(t, |t|) == [] && Expected(q, params, |q|) == []
  {}

  /** The lists agree when their first tokens do and the rest does. */
  lemma LexStep(q: string, params: seq<string>, i: nat, t: string, o: nat, x: Token)
    requires i < |q| && o + |x.text| <= |t| && t[o..o + |x.text|] == x.text && |x.text| > 0
    requires var r := Read(q, i);
             x == if InRange(r.kind, |params|) then Token(Str, Literal(params[r.kind.n - 1])) else Token(r.kind, q[i..r.end])
    ensures Lex(t, o) == Expected(q, params, i) <==>
              && Read(t, o) == Lexeme(x.kind, o + |x.text|)
              && Lex(t, o + |x.text|) == Expected(q, params, Read(q, i).end)
  {
    hide Read, Literal;
    var a, b := Lex(t, o), Expected(q, params, i);
    var r := Read(t, o);
    assert a[0] == Token(r.kind, t[o..r.end]) && b[0] == x;
    assert a[1..] == Lex(t, r.end) && b[1..] == Expected(q, params, Read(q, i).end);
    if a == b {
      assert |t[o..r.end]| == |x.text|;
    }
    assert a == [a[0]] + a[1..] && b == [b[0]] + b[1..];
  }
}
