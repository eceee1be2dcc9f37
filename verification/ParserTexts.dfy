/** What the text passes of internal/router/parser.go leave of a query: literals without their contents,
    text without comments, and the routing hint. */
module ParserTexts {
  import opened Wrappers
  import opened SqlText
  import opened Statements
  import opened Router
  import opened StatementCuts
  import L = SqlLexer

  // ---------------------------------------------------------------- literals

  /** The characters of q[i..e] that are c. */
  function Only(q: string, i: nat, e: nat, c: char): string
    requires i <= e <= |q|
    decreases e - i
  {
    if i == e then "" else (if q[i] == c then [c] else "") + Only(q, i + 1, e, c)
  }

  lemma OnlyUnfold(q: string, i: nat, e: nat, c: char)
    requires i <= e <= |q|
    ensures i == e ==> Only(q, i, e, c) == ""
    ensures i < e && q[i] == c ==> Only(q, i, e, c) == [c] + Only(q, i + 1, e, c)
    ensures i < e && q[i] != c ==> Only(q, i, e, c) == Only(q, i + 1, e, c)
  {}

  /** What StripLiterals goes on with behind a single-quoted region. */
  function Behind(q: string, r: Region): string
    requires r.end <= |q|
  {
    if r.closed then StripLiterals(q, r.end, Plain) else ""
  }

  /** Inside single quotes everything but the quotes is dropped. */
  lemma {:induction false} SingleEmptied(q: string, i: nat)
    requires i <= |q|
    ensures StripLiterals(q, i, Single) == Only(q, i, Quote(q, i).end, '\'') + Behind(q, Quote(q, i))
    decreases |q| - i
  {
    hide Quote, StripLiterals, Only, Behind;
    var r := Quote(q, i);
    StripSingle(q, i);
    OnlyUnfold(q, i, r.end, '\'');
    if i == |q| {
      QuoteAtEnd(q);
      BehindIs(q, r);
    } else {
      QuoteUnfold(q, i);
      if q[i] != '\'' {
        SingleEmptied(q, i + 1);
        SameBehind(q, r, Quote(q, i + 1));
      } else if i + 1 < |q| && q[i + 1] == '\'' {
        SingleEmptied(q, i + 2);
        SameBehind(q, r, Quote(q, i + 2));
        OnlyUnfold(q, i + 1, r.end, '\'');
        TwoQuotes(Only(q, i + 2, r.end, '\''), Behind(q, r));
      } else {
        BehindIs(q, r);
        OnlyUnfold(q, i + 1, r.end, '\'');
      }
    }
  }

  lemma BehindIs(q: string, r: Region)
    requires r.end <= |q|
    ensures Behind(q, r) == if r.closed then StripLiterals(q, r.end, Plain) else ""
  {}

  lemma SameBehind(q: string, r: Region, r': Region)
    requires r.end == r'.end <= |q| && r.closed == r'.closed
    ensures Behind(q, r) == Behind(q, r')
  {}

  lemma TwoQuotes(a: string, b: string)
    ensures (['\''] + (['\''] + a)) + b == "''" + (a + b)
  {}

  lemma StripSingle(q: string, i: nat)
    requires i <= |q|
    ensures StripLiterals(q, i, Single) ==
            if i == |q| then ""
            else if q[i] != '\'' then StripLiterals(q, i + 1, Single)
            else if i + 1 < |q| && q[i + 1] == '\'' then "''" + StripLiterals(q, i + 2, Single)
            else "'" + StripLiterals(q, i + 1, Plain)
  {
    hide DollarEnd, TagEnd;
  }

  lemma {:induction false} DoubleEmptied(q: string, i: nat)
    requires i <= |q|
    ensures StripLiterals(q, i, Double) ==
            if Find(q, "\"", i) < 0 then "" else "\"" + StripLiterals(q, Find(q, "\"", i) + 1, Plain)
    decreases |q| - i
  {
    hide StripLiterals;
    StripDouble(q, i);
    if i < |q| {
      OneChar(q, '"', i);
      if q[i] != '"' {
        DoubleEmptied(q, i + 1);
      }
    }
  }

  lemma StripDouble(q: string, i: nat)
    requires i <= |q|
    ensures StripLiterals(q, i, Double) ==
            if i == |q| then ""
            else if q[i] != '"' then StripLiterals(q, i + 1, Double)
            else "\"" + StripLiterals(q, i + 1, Plain)
  {
    hide DollarEnd, TagEnd;
  }

  /** What is left of the region that starts at i at top level: a dollar-quoted one loses what is between
      its tags, a quoted one all but its quotes; comments are not known here. */
  function Emptied(q: string, i: nat): (string, nat)
    requires i < |q|
  {
    if TagEnd(q, i) > i then (q[i..TagEnd(q, i)] + q[i..TagEnd(q, i)], DollarEnd(q, i))
    else if q[i] == '\'' then (Only(q, i, Quote(q, i + 1).end, '\''), Quote(q, i + 1).end)
    else if q[i] == '"' then (if Find(q, "\"", i + 1) < 0 then "\"" else "\"\"", DoubleEnd(q, i + 1))
    else ([q[i]], i + 1)
  }

  /** stripStringLiterals on every text, region by region: what is inside single quotes, double quotes and
      dollar quotes goes, and everything else stays. */
  lemma LiteralsEmptied(q: string, i: nat)
    requires i < |q|
    ensures Emptied(q, i).1 <= |q|
    ensures StripLiterals(q, i, Plain) == Emptied(q, i).0 + StripLiterals(q, Emptied(q, i).1, Plain)
  {
    hide StripLiterals, TagEnd, DollarEnd, Quote, Find, Only, Behind;
    StripPlain(q, i);
    StripDone(q);
    if TagEnd(q, i) > i {
    } else if q[i] == '\'' {
      var r := Quote(q, i + 1);
      SingleEmptied(q, i + 1);
      OpenQuote(q, i + 1);
      OnlyUnfold(q, i, r.end, '\'');
      BehindIs(q, r);
      Assoc("'", Only(q, i + 1, r.end, '\''), Behind(q, r));
    } else if q[i] == '"' {
      DoubleEmptied(q, i + 1);
    }
  }

  lemma StripDone(q: string)
    ensures StripLiterals(q, |q|, Plain) == ""
  {}

  lemma StripPlain(q: string, i: nat)
    requires i < |q|
    ensures StripLiterals(q, i, Plain) ==
            if TagEnd(q, i) > i then q[i..TagEnd(q, i)] + q[i..TagEnd(q, i)] + StripLiterals(q, DollarEnd(q, i), Plain)
            else if q[i] == '\'' then "'" + StripLiterals(q, i + 1, Single)
            else if q[i] == '"' then "\"" + StripLiterals(q, i + 1, Double)
            else [q[i]] + StripLiterals(q, i + 1, Plain)
  {
    hide DollarEnd, TagEnd;
  }

  // ---------------------------------------------------------------- comments

  /** The texts of the tokens that are not comments. */
  function Uncommented(ts: seq<L.Token>): string {
    if ts == [] then "" else (if ts[0].kind.Comment? then "" else ts[0].text) + Uncommented(ts[1..])
  }

  /** No comment opens in q[i..e]. */
  predicate NoOpener(q: string, i: nat, e: nat) {
    forall k :: i <= k < e ==> !Pair(q, k, '/', '*') && !Pair(q, k, '-', '-')
  }

  /** Comments open only where the server sees them, end there, and are closed. */
  predicate Commented(q: string, i: nat)
    requires i <= |q|
    decreases |q| - i
  {
    i < |q| ==>
      var r := L.Read(q, i);
      && Commented(q, r.end)
      && (if Pair(q, i, '-', '-') then r.end == |q| || q[r.end] == '\n'
          else if Pair(q, i, '/', '*') then r.kind.Comment?
          else NoOpener(q, i, r.end))
  }

  lemma {:induction false} CopiedText(q: string, i: nat, e: nat)
    requires i <= e <= |q| && NoOpener(q, i, e)
    ensures StripComments(q, i) == q[i..e] + StripComments(q, e)
    decreases e - i
  {
    hide StripComments, Pair;
    if i < e {
      CopiedText(q, i + 1, e);
      StripOne(q, i);
      assert q[i..e] == [q[i]] + q[i + 1..e];
      Assoc([q[i]], q[i + 1..e], StripComments(q, e));
    } else {
      assert q[i..e] == "";
    }
  }

  lemma StripOne(q: string, i: nat)
    requires i < |q| && !Pair(q, i, '/', '*') && !Pair(q, i, '-', '-')
    ensures StripComments(q, i) == [q[i]] + StripComments(q, i + 1)
  {}

  lemma Assoc(a: string, b: string, c: string)
    ensures a + (b + c) == (a + b) + c
  {}

  /** stripComments leaves exactly the tokens that are not comments. */
  lemma {:induction false} CommentsGo(q: string, i: nat)
    requires i <= |q| && Commented(q, i)
    ensures StripComments(q, i) == Uncommented(L.Lex(q, i))
    decreases |q| - i
  {
    hide L.Read, StripComments, BlockEnd, LineStop;
    if i == |q| {
      StripNone(q);
    } else {
      var r := L.Read(q, i);
      CommentsGo(q, r.end);
      assert L.Lex(q, i)[1..] == L.Lex(q, r.end);
      CommentToken(q, i);
      if Pair(q, i, '-', '-') {
        LineStopIs(q, i + 2, r.end);
      }
      if Pair(q, i, '/', '*') || Pair(q, i, '-', '-') {
        StripOpens(q, i);
      } else {
        CopiedText(q, i, r.end);
      }
    }
  }

  lemma StripNone(q: string)
    ensures StripComments(q, |q|) == ""
  {}

  lemma StripOpens(q: string, i: nat)
    requires i < |q|
    ensures Pair(q, i, '/', '*') ==> StripComments(q, i) == StripComments(q, BlockEnd(q, i + 2, 1))
    ensures Pair(q, i, '-', '-') ==> StripComments(q, i) == StripComments(q, LineStop(q, i + 2))
  {
    hide BlockEnd, LineStop;
  }

  lemma {:induction false} LineStopIs(q: string, i: nat, e: nat)
    requires i <= e <= |q| && (forall k :: i <= k < e ==> q[k] != '\n') && (e < |q| ==> q[e] == '\n')
    ensures LineStop(q, i) == e
    decreases e - i
  {
    if i < e {
      LineStopIs(q, i + 1, e);
    }
  }

  lemma CommentToken(q: string, i: nat)
    requires i < |q|
    ensures var r := L.Read(q, i);
            && (r.kind.Comment? ==> Pair(q, i, '/', '*') || Pair(q, i, '-', '-'))
            && (Pair(q, i, '-', '-') ==> r.kind.Comment? && i + 2 <= r.end && forall k :: i + 2 <= k < r.end ==> q[k] != '\n')
            && (Pair(q, i, '/', '*') && r.kind.Comment? ==> BlockEnd(q, i + 2, 1) == r.end)
  {
    hide BlockEnd, L.BlockClose, L.ConstEnd, L.IdentClose, L.CommentStop, TagRun, TagEnd, DollarEnd, DigitsEnd;
    if Pair(q, i, '/', '*') {
      BlockRegion(q, i + 2, 1);
    }
  }

  // ---------------------------------------------------------------- the routing hint

  /** The white space class of regular expressions. */
  predicate Spaces(s: string, i: nat, e: nat) {
    i <= e <= |s| && forall k :: i <= k < e ==> s[k] in {' ', '\t', '\n', '\r', FF}
  }

  /** A comment with nothing but the hint in it, and white space around it, stands at i. */
  ghost predicate HintAt(s: string, i: nat, word: string) {
    exists a: nat, b: nat :: HintBetween(s, i, a, b, word)
  }

  predicate HintBetween(s: string, i: nat, a: nat, b: nat, word: string) {
    && Pair(s, i, '/', '*') && Spaces(s, i + 2, a) && OccursAt(s, word, a)
    && Spaces(s, a + |word|, b) && Pair(s, b, '*', '/')
  }

  lemma {:induction false} SpaceEndIs(s: string, i: nat, e: nat)
    requires Spaces(s, i, e) && e < |s| && s[e] !in {' ', '\t', '\n', '\r', FF}
    ensures RegexSpaceEnd(s, i) == e
    decreases e - i
  {
    if i < e {
      SpaceEndIs(s, i + 1, e);
    }
  }

  lemma {:induction false} SpaceEndSpaces(s: string, i: nat)
    requires i <= |s|
    ensures Spaces(s, i, RegexSpaceEnd(s, i))
    decreases |s| - i
  {
    if i < |s| && IsWhite(s[i]) && s[i] != VT {
      SpaceEndSpaces(s, i + 1);
    }
  }

  /** The test of one position, as the search makes it. */
  predicate Tested(s: string, i: nat, word: string)
    requires i <= |s|
  {
    && Pair(s, i, '/', '*')
    && var a := RegexSpaceEnd(s, i + 2);
       OccursAt(s, word, a) && OccursAt(s, "*/", RegexSpaceEnd(s, a + |word|))
  }

  lemma TestedIs(s: string, i: nat, word: string)
    requires i <= |s| && word != "" && word[0] == 'r'
    ensures Tested(s, i, word) <==> HintAt(s, i, word)
  {
    if Tested(s, i, word) {
      var a := RegexSpaceEnd(s, i + 2);
      var b := RegexSpaceEnd(s, a + |word|);
      SpaceEndSpaces(s, i + 2);
      SpaceEndSpaces(s, a + |word|);
      assert "*/"[0] == s[b + 0] && "*/"[1] == s[b + 1];
      assert HintBetween(s, i, a, b, word);
    }
    if HintAt(s, i, word) {
      var a: nat, b: nat :| HintBetween(s, i, a, b, word);
      assert word[0] == s[a + 0];
      SpaceEndIs(s, i + 2, a);
      SpaceEndIs(s, a + |word|, b);
    }
  }

  const WRITER: string := "route:writer"
  const READER: string := "route:reader"

  lemma HintUnfold(s: string, i: nat)
    requires i < |s|
    ensures HintMatch(s, i) == if Tested(s, i, WRITER) then Some(Write)
                               else if Tested(s, i, READER) then Some(Read)
                               else HintMatch(s, i + 1)
  {
    hide RegexSpaceEnd;
    assert |WRITER| == 12 && |READER| == 12;
  }

  /** No hint stands before i. */
  ghost predicate NoHintBefore(s: string, lo: nat, i: nat) {
    forall k: nat :: lo <= k < i ==> !HintAt(s, k, WRITER) && !HintAt(s, k, READER)
  }

  /** The search finds the leftmost hint, and which one it is. */
  lemma {:induction false} HintMatchExact(s: string, lo: nat)
    requires lo <= |s|
    ensures HintMatch(s, lo) == Some(Write) <==> exists i: nat :: lo <= i < |s| && HintAt(s, i, WRITER) && NoHintBefore(s, lo, i)
    ensures HintMatch(s, lo) == Some(Read) <==>
            exists i: nat :: lo <= i < |s| && HintAt(s, i, READER) && NoHintBefore(s, lo, i)
    decreases |s| - lo
  {
    hide HintMatch, HintAt, Tested;
    if lo < |s| {
      HintUnfold(s, lo);
      TestedIs(s, lo, WRITER);
      TestedIs(s, lo, READER);
      OneHint(s, lo);
      if Tested(s, lo, WRITER) || Tested(s, lo, READER) {
        assert NoHintBefore(s, lo, lo);
        forall i: nat | lo < i && NoHintBefore(s, lo, i) ensures false {}
      } else {
        HintMatchExact(s, lo + 1);
        forall i: nat | lo < i ensures NoHintBefore(s, lo, i) <==> NoHintBefore(s, lo + 1, i) {}
      }
    } else {
      NoneLeft(s);
    }
  }

  lemma NoneLeft(s: string)
    ensures HintMatch(s, |s|) == None
  {}

  /** A position does not hold both hints. */
  lemma OneHint(s: string, i: nat)
    ensures !(HintAt(s, i, WRITER) && HintAt(s, i, READER))
  {
    if HintAt(s, i, WRITER) && HintAt(s, i, READER) {
      var a: nat, b: nat :| HintBetween(s, i, a, b, WRITER);
      var c: nat, d: nat :| HintBetween(s, i, c, d, READER);
      assert WRITER[0] == s[a + 0] && READER[0] == s[c + 0];
      SpaceEndIs(s, i + 2, a);
      SpaceEndIs(s, i + 2, c);
      LetterAt(s, a, WRITER, 6);
      LetterAt(s, c, READER, 6);
    }
  }

  lemma LetterAt(s: string, a: nat, word: string, k: nat)
    requires k < |word|
    ensures OccursAt(s, word, a) ==> a + k < |s| && s[a + k] == word[k]
  {}

  lemma {:induction false} BlockSkips(s: string, i: nat, j: nat, depth: nat)
    requires i <= j <= |s| && depth > 0
    requires forall k :: i <= k < j ==> !Pair(s, k, '/', '*') && !Pair(s, k, '*', '/')
    ensures BlockEnd(s, i, depth) == BlockEnd(s, j, depth)
    decreases j - i
  {
    hide BlockEnd;
    if i < j {
      BlockEndUnfold(s, i, depth);
      BlockSkips(s, i + 1, j, depth);
    }
  }

  /** The letters of a hint. */
  lemma HintLetters(s: string, a: nat, word: string)
    requires word == WRITER || word == READER
    requires OccursAt(s, word, a)
    ensures forall k :: a <= k < a + 12 ==> s[k] != '/' && s[k] != '*'
  {
    forall k | a <= k < a + 12 ensures s[k] != '/' && s[k] != '*' {
      assert word[k - a] == s[a + (k - a)];
    }
  }

  /** The comment of a hint ends with it. */
  lemma HintCloses(s: string, i: nat, a: nat, b: nat, word: string)
    requires (word == WRITER || word == READER) && HintBetween(s, i, a, b, word)
    ensures BlockEnd(s, i + 2, 1) == b + 2
    ensures forall k :: i + 2 <= k < b ==> s[k] != '/' && s[k] != '*'
  {
    hide BlockEnd;
    HintLetters(s, a, word);
    forall k | i + 2 <= k < b ensures s[k] != '/' && s[k] != '*' {}
    BlockSkips(s, i + 2, b, 1);
    BlockEndUnfold(s, b, 1);
    BlockEndUnfold(s, b + 2, 0);
  }

  lemma {:induction false} OneOpener(s: string, i: nat)
    requires i <= |s| && forall k :: i <= k < |s| ==> !Pair(s, k, '/', '*')
    ensures Openers(s, i) == 0
    decreases |s| - i
  {
    if i < |s| {
      OneOpener(s, i + 1);
    }
  }

  /** The comment on its own holds the hint at its start. */
  lemma HintAlone(s: string, i: nat, a: nat, b: nat, word: string)
    requires (word == WRITER || word == READER) && HintBetween(s, i, a, b, word)
    ensures var c := s[i..b + 2];
            Openers(c, 0) == 1 && HintMatch(c, 0) == Some(if word == WRITER then Write else Read)
  {
    hide HintMatch, Openers, BlockEnd, OccursAt;
    var c := s[i..b + 2];
    HintCloses(s, i, a, b, word);
    assert forall k :: 0 <= k < |c| ==> c[k] == s[i + k];
    assert OccursAt(c, word, a - i) by { OccursInside(s, i, b + 2, word, a); }
    assert HintBetween(c, 0, a - i, b - i, word);
    assert HintAt(c, 0, word);
    assert NoHintBefore(c, 0, 0);
    HintMatchExact(c, 0);
    OneOpener(c, 2);
    OpenersUnfold(c, 0);
  }

  lemma OccursInside(s: string, i: nat, e: nat, word: string, a: nat)
    requires i <= a && a + |word| <= e <= |s| && OccursAt(s, word, a)
    ensures OccursAt(s[i..e], word, a - i)
  {
    forall k | 0 <= k < |word| ensures word[k] == s[i..e][a - i + k] {
      assert word[k] == s[a + k];
    }
  }

  lemma OpenersUnfold(s: string, i: nat)
    requires Pair(s, i, '/', '*')
    ensures Openers(s, i) == 1 + Openers(s, i + 2)
  {}

  /** A comment with nothing but a hint in it is honoured, in every query in which no comment opens
      before it once the literals are emptied. */
  lemma {:induction false} HintHonoured(s: string, j: nat, i: nat, word: string)
    requires (word == WRITER || word == READER) && HintAt(s, i, word) && j <= i <= |s|
    requires forall k :: j <= k < i ==> !Pair(s, k, '/', '*')
    ensures HintFrom(s, j) == Some(if word == WRITER then Write else Read)
    decreases i - j
  {
    hide HintMatch, Openers, BlockEnd, Contains;
    if j < i {
      HintHonoured(s, j + 1, i, word);
    } else {
      var a: nat, b: nat :| HintBetween(s, i, a, b, word);
      HintAlone(s, i, a, b, word);
      HintCloses(s, i, a, b, word);
    }
  }

  lemma {:induction false} NothingEmptied(q: string, i: nat)
    requires i <= |q| && forall k :: i <= k < |q| ==> q[k] != '\'' && q[k] != '"' && q[k] != '$'
    ensures StripLiterals(q, i, Plain) == q[i..]
    decreases |q| - i
  {
    hide StripLiterals;
    if i < |q| {
      StripPlain(q, i);
      NothingEmptied(q, i + 1);
    } else {
      StripDone(q);
    }
  }

  /** A hint in a nested comment is honoured after all when no opener in the comment has a blank behind
      it: the test for nesting looks for an opener with a blank. */
  lemma NestedHintIsHonoured()
    ensures ExtractHint("/*x/*route:writer*/*/") == Some(Write)
  {
    hide HintMatch, Openers, BlockEnd, Contains, StripLiterals, OccursAt;
    var q := "/*x/*route:writer*/*/";
    assert |q| == 21;
    NothingEmptied(q, 0);
    assert q[0..] == q;
    NestedEnds(q);
    var c := q[0..21];
    assert c == q;
    NestedMatch(q);
    assert !Contains(q, "/* ") by { NoBlankOpener(q); }
  }

  lemma NestedEnds(q: string)
    requires q == "/*x/*route:writer*/*/"
    ensures Pair(q, 0, '/', '*') && BlockEnd(q, 2, 1) == 21
  {
    hide BlockEnd;
    BlockSkips(q, 2, 3, 1);
    BlockEndUnfold(q, 3, 1);
    BlockSkips(q, 5, 17, 2);
    BlockEndUnfold(q, 17, 2);
    BlockEndUnfold(q, 19, 1);
    BlockEndUnfold(q, 21, 0);
  }

  /** Behind the opener of a hint there is white space or the hint. */
  lemma HintStarts(s: string, k: nat, word: string)
    requires word == WRITER || word == READER
    ensures HintAt(s, k, word) ==> Pair(s, k, '/', '*') && k + 2 < |s| && s[k + 2] in {' ', '\t', '\n', '\r', FF, 'r'}
  {
    if HintAt(s, k, word) {
      var a: nat, b: nat :| HintBetween(s, k, a, b, word);
      LetterAt(s, a, word, 0);
    }
  }

  lemma NestedWord(q: string)
    requires q == "/*x/*route:writer*/*/"
    ensures HintAt(q, 3, WRITER)
  {
    assert q[5..17] == WRITER;
    forall k | 0 <= k < 12 ensures WRITER[k] == q[5 + k] {
      assert q[5..17][k] == q[5 + k];
    }
    assert HintBetween(q, 3, 5, 17, WRITER);
  }

  lemma NestedMatch(q: string)
    requires q == "/*x/*route:writer*/*/"
    ensures HintMatch(q, 0) == Some(Write)
  {
    hide HintMatch, HintAt;
    NestedWord(q);
    assert q[1] == '*' && q[2] == 'x';
    forall k: nat | k < 3 ensures !HintAt(q, k, WRITER) && !HintAt(q, k, READER) {
      HintStarts(q, k, WRITER);
      HintStarts(q, k, READER);
    }
    assert NoHintBefore(q, 0, 3);
    HintMatchExact(q, 0);
  }

  lemma NoBlankOpener(q: string)
    requires forall k :: 0 <= k < |q| ==> q[k] != ' '
    ensures !Contains(q, "/* ")
  {
    forall k: nat ensures !OccursAt(q, "/* ", k) {
      LetterAt(q, k, "/* ", 2);
    }
  }

  // ---------------------------------------------------------------- the classifier

  /** q[i..e] are letters, only blanks, tabs and line ends stand before them, and a blank, a tab, a line
      feed, a parenthesis or the end behind them. */
  predicate LeadAt(q: string, i: nat, e: nat) {
    && i <= e <= |q| && (forall k :: 0 <= k < i ==> q[k] in {' ', '\t', '\n', '\r'})
    && (i < |q| ==> !IsWhite(q[i])) && (forall k :: i <= k < e ==> IsLetter(q[k]))
    && (e == |q| || q[e] in {' ', '\t', '\n', '('})
  }

  /** The fast path sees the leading word exactly when it stands so. */
  lemma FastSeesExact(q: string)
    ensures FastSees(q) <==> exists i: nat, e: nat :: LeadAt(q, i, e)
  {
    hide FastSees, LeadAt;
    if FastSees(q) {
      var e := SeenLeads(q);
    }
    if i: nat, e: nat :| LeadAt(q, i, e) {
      LeadIsSeen(q, i, e);
    }
  }

  lemma SeenLeads(q: string) returns (e: nat)
    requires FastSees(q)
    ensures LeadAt(q, LeftEdge(q, 0), e)
  {
    hide LeftEdge, BlankEdge, LetterEnd;
    e := LetterEnd(q, LeftEdge(q, 0));
  }

  lemma LeadIsSeen(q: string, i: nat, e: nat)
    requires LeadAt(q, i, e)
    ensures FastSees(q)
  {
    hide LeftEdge, BlankEdge, LetterEnd;
    LeftEdgeIs(q, 0, i);
    LetterEndIs(q, i, e);
    BlankEdgeIs(q, 0, i);
  }

  lemma {:induction false} BlankEdgeIs(q: string, j: nat, i: nat)
    requires j <= i <= |q| && (forall k :: j <= k < i ==> IsBlank(q[k])) && (i < |q| ==> !IsBlank(q[i]))
    ensures BlankEdge(q, j) == i
    decreases i - j
  {
    if j < i {
      BlankEdgeIs(q, j + 1, i);
    }
  }

  /** The nine statements that write. */
  lemma WriteWords(kw: string)
    ensures IsWriteKeyword(kw) <==>
            kw in {"INSERT", "UPDATE", "DELETE", "CREATE", "ALTER", "DROP", "TRUNCATE", "GRANT", "REVOKE"}
  {
    var ws := WriteKeywords;
    assert |ws| == 9 && ws[0] == "INSERT" && ws[1] == "UPDATE" && ws[2] == "DELETE" && ws[3] == "CREATE" && ws[4] == "ALTER";
    assert ws[5] == "DROP" && ws[6] == "TRUNCATE" && ws[7] == "GRANT" && ws[8] == "REVOKE";
  }

  /** u is a write keyword between a and b, with a blank, a parenthesis, a line feed or nothing in front
      of it, and a blank, a line feed, a parenthesis or nothing behind it. */
  predicate Between(u: string, a: string, kw: string, b: string) {
    && u == a + kw + b && (a == "" || a[|a| - 1] in {' ', '(', '\n'}) && (b == "" || b[0] in {' ', '\n', '('})
    && kw in {"INSERT", "UPDATE", "DELETE", "CREATE", "ALTER", "DROP", "TRUNCATE", "GRANT", "REVOKE"}
  }

  ghost predicate HoldsWriteWord(u: string) {
    exists a: string, kw: string, b: string :: Between(u, a, kw, b)
  }

  /** A write keyword is found in a WITH query if and only if one stands alone outside its literals. */
  lemma ContainsExact(stmt: string)
    ensures ContainsWriteKeyword(stmt) <==> HoldsWriteWord(Upper(StripLiterals(stmt, 0, Plain)))
  {
    hide Upper, StripLiterals, StandsAlone, Between, IsWriteKeyword;
    var u := Upper(StripLiterals(stmt, 0, Plain));
    if ContainsWriteKeyword(stmt) {
      var k, i :| 0 <= k < |WriteKeywords| && 0 <= i < |u| && StandsAlone(u, WriteKeywords[k], i);
      AloneIsBetween(u, k, i);
    }
    if HoldsWriteWord(u) {
      var a: string, kw: string, b: string :| Between(u, a, kw, b);
      var k := BetweenIsAlone(u, a, kw, b);
    }
  }

  lemma AloneIsBetween(u: string, k: nat, i: nat)
    requires k < |WriteKeywords| && StandsAlone(u, WriteKeywords[k], i)
    ensures i + |WriteKeywords[k]| <= |u| && Between(u, u[..i], WriteKeywords[k], u[i + |WriteKeywords[k]|..])
  {
    hide StandsAlone, IsWriteKeyword;
    AloneParts(u, WriteKeywords[k], i);
    assert IsWriteKeyword(WriteKeywords[k]) by { Listed(k); }
    WriteWords(WriteKeywords[k]);
  }

  lemma Listed(k: nat)
    requires k < |WriteKeywords|
    ensures IsWriteKeyword(WriteKeywords[k])
  {}

  lemma BetweenIsAlone(u: string, a: string, kw: string, b: string) returns (k: nat)
    requires Between(u, a, kw, b)
    ensures k < |WriteKeywords| && |a| < |u| && StandsAlone(u, WriteKeywords[k], |a|)
  {
    hide StandsAlone, IsWriteKeyword;
    WriteWords(kw);
    k := Position(kw);
    PartsAlone(u, a, kw, b);
  }

  lemma Position(kw: string) returns (k: nat)
    requires IsWriteKeyword(kw)
    ensures k < |WriteKeywords| && WriteKeywords[k] == kw
  {
    k :| 0 <= k < |WriteKeywords| && WriteKeywords[k] == kw;
  }

  lemma AloneParts(u: string, kw: string, i: nat)
    requires StandsAlone(u, kw, i)
    ensures i + |kw| <= |u|
    ensures var a, b := u[..i], u[i + |kw|..];
            && u == a + kw + b && (a == "" || a[|a| - 1] in {' ', '(', '\n'}) && (b == "" || b[0] in {' ', '\n', '('})
  {
    var a, b := u[..i], u[i + |kw|..];
    assert u[i..i + |kw|] == kw;
    assert u == a + u[i..i + |kw|] + b;
  }

  lemma PartsAlone(u: string, a: string, kw: string, b: string)
    requires u == a + kw + b && kw != ""
    requires (a == "" || a[|a| - 1] in {' ', '(', '\n'}) && (b == "" || b[0] in {' ', '\n', '('})
    ensures |a| < |u| && StandsAlone(u, kw, |a|)
  {
    forall k | 0 <= k < |kw| ensures kw[k] == u[|a| + k] {}
  }

  /** A statement is a write by its first word, or by a write keyword on its own in a WITH query. */
  predicate Writes(stmt: string) {
    || FirstKeyword(stmt) in {"INSERT", "UPDATE", "DELETE", "CREATE", "ALTER", "DROP", "TRUNCATE", "GRANT", "REVOKE"}
    || (FirstKeyword(stmt) == "WITH" && ContainsWriteKeyword(stmt))
  }

  lemma {:induction false} AnyWriteIs(stmts: seq<string>)
    ensures AnyWrite(stmts) <==> exists i :: 0 <= i < |stmts| && Writes(stmts[i])
  {
    hide FirstKeyword, ContainsWriteKeyword, IsWriteKeyword;
    if stmts != [] {
      WriteWords(FirstKeyword(stmts[0]));
      AnyWriteIs(stmts[1..]);
      assert forall i :: 0 < i < |stmts| ==> stmts[1..][i - 1] == stmts[i];
      if i :| 0 <= i < |stmts[1..]| && Writes(stmts[1..][i]) {
        assert Writes(stmts[i + 1]);
      }
    }
  }

  /** The full classifier: a hint decides, and without one a query writes if and only if one of its
      statements does. */
  lemma SlowClassifyExact(q: string)
    ensures SlowClassify(q) == Write <==>
            || ExtractHint(q) == Some(Write)
            || (ExtractHint(q) == None && exists i :: 0 <= i < |Split(q)| && Writes(Split(q)[i]))
  {
    hide ExtractHint, Split, Writes;
    AnyWriteIs(Split(q));
  }
}
