/** Query classification, transaction tracking and routing of internal/router/parser.go and
    internal/router/router.go, with the exact reach of their two fast paths. */
module Router {
  import opened SqlText
  import opened Statements
  import opened Wrappers

  datatype QueryType = Read | Write

  const WriteKeywords: seq<string> := [
    "INSERT", "UPDATE", "DELETE", "CREATE", "ALTER", "DROP", "TRUNCATE", "GRANT", "REVOKE"
  ]

  predicate IsWriteKeyword(kw: string) {
    kw in WriteKeywords
  }

  predicate IsWith(kw: string) {
    kw == "WITH"
  }

  // ---------------------------------------------------------------- scanning words

  /** The white space the byte-level fast paths skip: vertical tab and form feed are missing. */
  predicate IsBlank(c: char) {
    c == ' ' || c == '\t' || c == '\n' || c == '\r'
  }

  function BlankEdge(q: string, i: nat): (r: nat)
    requires i <= |q|
    ensures i <= r <= |q|
    ensures forall k :: i <= k < r ==> IsBlank(q[k])
    ensures r < |q| ==> !IsBlank(q[r])
    decreases |q| - i
  {
    if i < |q| && IsBlank(q[i]) then BlankEdge(q, i + 1) else i
  }

  predicate EndsFastWord(c: char) {
    c == ' ' || c == '\t' || c == '\n' || c == '('
  }

  /** End of the word classifyFast reads at i. */
  function FastWordEnd(q: string, i: nat): (r: nat)
    requires i <= |q|
    ensures i <= r <= |q|
    ensures forall k :: i <= k < r ==> !EndsFastWord(q[k])
    ensures r < |q| ==> EndsFastWord(q[r])
    decreases |q| - i
  {
    if i < |q| && !EndsFastWord(q[i]) then FastWordEnd(q, i + 1) else i
  }

  /** End of the field strings.Fields reads at i. */
  function FieldEnd(q: string, i: nat): (r: nat)
    requires i <= |q|
    ensures i <= r <= |q|
    ensures forall k :: i <= k < r ==> !IsWhite(q[k])
    ensures r < |q| ==> IsWhite(q[r])
    decreases |q| - i
  {
    if i < |q| && !IsWhite(q[i]) then FieldEnd(q, i + 1) else i
  }

  /** End of the run of letters at i. */
  function LetterEnd(q: string, i: nat): (r: nat)
    requires i <= |q|
    ensures i <= r <= |q|
    ensures forall k :: i <= k < r ==> IsLetter(q[k])
    ensures r < |q| ==> !IsLetter(q[r])
    decreases |q| - i
  {
    if i < |q| && IsLetter(q[i]) then LetterEnd(q, i + 1) else i
  }

  // ---------------------------------------------------------------- the full parser

  /** stripStringLiterals: quoted contents are dropped, the quotes stay. */
  function StripLiterals(q: string, i: nat, m: Mode): string
    requires i <= |q|
    decreases |q| - i
  {
    if i == |q| then ""
    else if m.Plain? && TagEnd(q, i) > i then
      var tag := q[i..TagEnd(q, i)];
      tag + tag + StripLiterals(q, DollarEnd(q, i), Plain)
    else if q[i] == '\'' && !m.Double? then
      if m.Plain? then ['\''] + StripLiterals(q, i + 1, Single)
      else if Pair(q, i, '\'', '\'') then ['\'', '\''] + StripLiterals(q, i + 2, Single)
      else ['\''] + StripLiterals(q, i + 1, Plain)
    else if q[i] == '"' && !m.Single? then
      ['"'] + StripLiterals(q, i + 1, if m.Double? then Plain else Double)
    else if !m.Plain? then StripLiterals(q, i + 1, m)
    else [q[i]] + StripLiterals(q, i + 1, Plain)
  }

  /** stripComments. */
  function StripComments(q: string, i: nat): string
    requires i <= |q|
    decreases |q| - i
  {
    if i == |q| then ""
    else if Pair(q, i, '/', '*') then StripComments(q, BlockEnd(q, i + 2, 1))
    else if Pair(q, i, '-', '-') then StripComments(q, LineStop(q, i + 2))
    else [q[i]] + StripComments(q, i + 1)
  }

  /** The newline that ends a line comment, or the end of the text. */
  function LineStop(q: string, i: nat): (r: nat)
    requires i <= |q|
    ensures i <= r <= |q|
    decreases |q| - i
  {
    if i == |q| || q[i] == '\n' then i else LineStop(q, i + 1)
  }

  /** The regular-expression white space class, which lacks the vertical tab. */
  function RegexSpaceEnd(s: string, i: nat): (r: nat)
    requires i <= |s|
    ensures i <= r <= |s|
    decreases |s| - i
  {
    if i < |s| && IsWhite(s[i]) && s[i] != VT then RegexSpaceEnd(s, i + 1) else i
  }

  /** The leftmost match of the routing hint in a comment. */
  function HintMatch(s: string, i: nat): Option<QueryType>
    requires i <= |s|
    decreases |s| - i
  {
    if i == |s| then None
    else
      var a := if Pair(s, i, '/', '*') then RegexSpaceEnd(s, i + 2) else 0;
      if Pair(s, i, '/', '*') && OccursAt(s, "route:writer", a) && OccursAt(s, "*/", RegexSpaceEnd(s, a + 12)) then Some(Write)
      else if Pair(s, i, '/', '*') && OccursAt(s, "route:reader", a) && OccursAt(s, "*/", RegexSpaceEnd(s, a + 12)) then Some(Read)
      else HintMatch(s, i + 1)
  }

  /** Number of comment openers, counted without overlap. */
  function Openers(s: string, i: nat): nat
    requires i <= |s|
    decreases |s| - i
  {
    if i == |s| then 0
    else if Pair(s, i, '/', '*') then 1 + Openers(s, i + 2)
    else Openers(s, i + 1)
  }

  /** extractHint on the text without string literals, from position i on. */
  function HintFrom(s: string, i: nat): Option<QueryType>
    requires i <= |s|
    decreases |s| - i
  {
    if i == |s| then None
    else if Pair(s, i, '/', '*') then
      var j := BlockEnd(s, i + 2, 1);
      var comment := s[i..j];
      var hint := if !Contains(comment, "/* ") || Openers(comment, 0) == 1 then HintMatch(comment, 0) else None;
      if hint.Some? then hint else HintFrom(s, j)
    else HintFrom(s, i + 1)
  }

  function ExtractHint(q: string): Option<QueryType> {
    HintFrom(StripLiterals(q, 0, Plain), 0)
  }

  /** firstKeyword: the first field of the statement without its comments, in upper case. */
  function FirstKeyword(stmt: string): string {
    var s := StripComments(stmt, 0);
    var lo := LeftEdge(s, 0);
    Upper(s[lo..FieldEnd(s, lo)])
  }

  /** containsWriteKeyword: a write keyword stands between word boundaries outside literals. */
  predicate ContainsWriteKeyword(stmt: string) {
    var u := Upper(StripLiterals(stmt, 0, Plain));
    exists k, i :: 0 <= k < |WriteKeywords| && 0 <= i < |u| && StandsAlone(u, WriteKeywords[k], i)
  }

  predicate StandsAlone(u: string, kw: string, i: nat) {
    && OccursAt(u, kw, i)
    && (i == 0 || u[i - 1] == ' ' || u[i - 1] == '(' || u[i - 1] == '\n')
    && (i + |kw| == |u| || u[i + |kw|] == ' ' || u[i + |kw|] == '\n' || u[i + |kw|] == '(')
  }

  predicate IsWriteStatement(stmt: string) {
    var kw := FirstKeyword(stmt);
    IsWriteKeyword(kw) || (IsWith(kw) && ContainsWriteKeyword(stmt))
  }

  predicate AnyWrite(stmts: seq<string>) {
    stmts != [] && (IsWriteStatement(stmts[0]) || AnyWrite(stmts[1..]))
  }

  /** The hint-and-scan path of Classify. */
  function SlowClassify(q: string): QueryType {
    var hint := ExtractHint(q);
    if hint.Some? then hint.value else if AnyWrite(Split(q)) then Write else Read
  }

  // ---------------------------------------------------------------- the fast path

  /** What classifyFast answers; None sends the query to the full parser. */
  function FastClassify(q: string): Option<QueryType> {
    var i := BlankEdge(q, 0);
    if i == |q| then Some(Read)
    else if Contains(q, "/*") || Contains(q, "--") || !IsSingle(q) then None
    else
      var kw := Upper(q[i..FastWordEnd(q, i)]);
      if IsWriteKeyword(kw) then Some(Write) else if IsWith(kw) then None else Some(Read)
  }

  /** classifyFast as the index loop it is. */
  method ClassifyFast(query: string) returns (r: Option<QueryType>)
    ensures r == FastClassify(query)
  {
    hide IsWriteKeyword, IsWith, IsSingle, Contains, Upper;
    var i := 0;
    while i < |query| && IsBlank(query[i])
      invariant 0 <= i <= |query|
      invariant BlankEdge(query, 0) == BlankEdge(query, i)
    {
      i := i + 1;
    }
    if i >= |query| {
      return Some(Read);
    }
    if Contains(query, "/*") || Contains(query, "--") {
      return None;
    }
    if !IsSingle(query) {
      return None;
    }
    var j := i;
    while j < |query| && !EndsFastWord(query[j])
      invariant i <= j <= |query|
      invariant FastWordEnd(query, i) == FastWordEnd(query, j)
    {
      j := j + 1;
    }
    if j == i {
      NotKeyword(Upper(query[i..j]));
      return Some(Read);
    }
    var kw := Upper(query[i..j]);
    if IsWriteKeyword(kw) {
      return Some(Write);
    }
    if IsWith(kw) {
      return None;
    }
    return Some(Read);
  }

  lemma NotKeyword(kw: string)
    requires |kw| < 4 || exists k :: 0 <= k < |kw| && !IsLetter(kw[k])
    ensures !IsWriteKeyword(kw) && !IsWith(kw)
  {}

  // ---------------------------------------------------------------- where the two disagree

  /** The letters the query starts with, after all its leading white space. */
  function LeadWord(q: string): string {
    var lo := LeftEdge(q, 0);
    Upper(q[lo..LetterEnd(q, lo)])
  }

  /** classifyFast sees the leading word on its own. */
  predicate FastSees(q: string) {
    var lo := LeftEdge(q, 0);
    var e := LetterEnd(q, lo);
    BlankEdge(q, 0) == lo && (e == |q| || EndsFastWord(q[e]))
  }

  /** The full parser sees the leading word on its own. */
  predicate SlowSees(q: string) {
    var e := LetterEnd(q, LeftEdge(q, 0));
    e == |q| || IsWhite(q[e]) || q[e] == ';'
  }

  predicate HasWriteCte(q: string) {
    exists i :: 0 <= i < |Split(q)| && ContainsWriteKeyword(Split(q)[i])
  }

  /** The leading word is a keyword that only one of the two paths recognises. */
  predicate Misread(q: string) {
    || (IsWriteKeyword(LeadWord(q)) && FastSees(q) != SlowSees(q))
    || (IsWith(LeadWord(q)) && SlowSees(q) && !FastSees(q) && HasWriteCte(q))
  }

  /** No comment opens anywhere in the text. */
  predicate NoComment(q: string) {
    forall k: nat {:trigger Pair(q, k, '/', '*')} {:trigger Pair(q, k, '-', '-')} | k < |q| ::
      !Pair(q, k, '/', '*') && !Pair(q, k, '-', '-')
  }

  lemma NoPair(q: string, c: char, d: char)
    requires !Contains(q, [c, d])
    ensures forall k: nat :: !Pair(q, k, c, d)
  {
    forall k: nat ensures !Pair(q, k, c, d) {
      assert Pair(q, k, c, d) ==> OccursAt(q, [c, d], k);
    }
  }

  lemma CommentFree(q: string)
    requires !Contains(q, "/*") && !Contains(q, "--")
    ensures NoComment(q)
  {
    NoPair(q, '/', '*');
    NoPair(q, '-', '-');
  }

  lemma {:induction false} StripCommentsPlain(q: string, i: nat)
    requires i <= |q| && NoComment(q)
    ensures StripComments(q, i) == q[i..]
    decreases |q| - i
  {
    if i < |q| {
      assert !Pair(q, i, '/', '*') && !Pair(q, i, '-', '-');
      StripCommentsPlain(q, i + 1);
    }
  }

  /** Dropping literals never brings two characters of a comment opener together. */
  lemma {:induction false} StripLiteralsPlain(q: string, i: nat, m: Mode)
    requires i <= |q| && NoComment(q)
    ensures var s := StripLiterals(q, i, m);
            && (m.Plain? && i < |q| ==> |s| > 0 && s[0] == q[i])
            && (!m.Plain? && |s| > 0 ==> s[0] != '*')
            && forall k: nat :: !Pair(s, k, '/', '*')
    decreases |q| - i
  {
    hide DollarEnd, TagEnd;
    if i < |q| {
      if m.Plain? && TagEnd(q, i) > i {
        StripLiteralsPlain(q, DollarEnd(q, i), Plain);
        TagsClean(q, i, StripLiterals(q, DollarEnd(q, i), Plain));
      } else if q[i] == '\'' && m.Single? && Pair(q, i, '\'', '\'') {
        StripLiteralsPlain(q, i + 2, Single);
        PrependClean(['\'', '\''], StripLiterals(q, i + 2, Single));
      } else if q[i] == '\'' && !m.Double? {
        var m' := if m.Plain? then Single else Plain;
        StripLiteralsPlain(q, i + 1, m');
        PrependClean(['\''], StripLiterals(q, i + 1, m'));
      } else if q[i] == '"' && !m.Single? {
        var m' := if m.Double? then Plain else Double;
        StripLiteralsPlain(q, i + 1, m');
        PrependClean(['"'], StripLiterals(q, i + 1, m'));
      } else {
        assert !Pair(q, i, '/', '*');
        StripLiteralsPlain(q, i + 1, m);
        if m.Plain? {
          PrependClean([q[i]], StripLiterals(q, i + 1, m));
        }
      }
    }
  }

  /** Dollar tags bring no opener with them. */
  lemma TagsClean(q: string, i: nat, rest: string)
    requires i < |q| && TagEnd(q, i) > i && forall k: nat :: !Pair(rest, k, '/', '*')
    ensures var tag := q[i..TagEnd(q, i)];
            && |tag + tag + rest| > 0 && (tag + tag + rest)[0] == q[i]
            && forall k: nat :: !Pair(tag + tag + rest, k, '/', '*')
  {
    hide TagEnd;
    var tag := q[i..TagEnd(q, i)];
    forall k | 0 <= k < |tag| ensures tag[k] != '/' {
      assert tag[k] == q[i + k];
    }
    PrependClean(tag + tag, rest);
  }

  /** Text without an opener stays so when clean text is put in front. */
  lemma PrependClean(t: string, s: string)
    requires forall k: nat :: !Pair(s, k, '/', '*')
    requires forall k :: 0 <= k < |t| && t[k] == '/' ==> k == |t| - 1
    requires t != [] && t[|t| - 1] == '/' && s != [] ==> s[0] != '*'
    ensures forall k: nat :: !Pair(t + s, k, '/', '*')
  {
    forall k: nat ensures !Pair(t + s, k, '/', '*') {
      if k >= |t| {
        assert !Pair(s, k - |t|, '/', '*');
      }
    }
  }

  lemma {:induction false} HintFromPlain(s: string, i: nat)
    requires i <= |s| && forall k: nat :: !Pair(s, k, '/', '*')
    ensures HintFrom(s, i) == None
    decreases |s| - i
  {
    if i < |s| {
      HintFromPlain(s, i + 1);
    }
  }

  lemma NoHint(q: string)
    requires NoComment(q)
    ensures ExtractHint(q) == None
  {
    StripLiteralsPlain(q, 0, Plain);
    HintFromPlain(StripLiterals(q, 0, Plain), 0);
  }

  lemma {:induction false} FieldEndIs(q: string, i: nat, r: nat)
    requires i <= r <= |q|
    requires forall k :: i <= k < r ==> !IsWhite(q[k])
    requires r < |q| ==> IsWhite(q[r])
    ensures FieldEnd(q, i) == r
    decreases r - i
  {
    if i < r {
      FieldEndIs(q, i + 1, r);
    }
  }

  lemma SubNoComment(q: string, lo: nat, hi: nat)
    requires lo <= hi <= |q| && NoComment(q)
    ensures NoComment(q[lo..hi])
  {
    forall k: nat | k < hi - lo ensures !Pair(q[lo..hi], k, '/', '*') && !Pair(q[lo..hi], k, '-', '-') {
      assert !Pair(q, lo + k, '/', '*') && !Pair(q, lo + k, '-', '-');
    }
  }

  /** Trimming the text before position c starts where the query's own leading space ends. */
  lemma TrimHead(q: string, c: nat) returns (hi: nat)
    requires LeftEdge(q, 0) < c <= |q|
    ensures LeftEdge(q, 0) < hi <= c && Trim(q[..c]) == q[LeftEdge(q, 0)..hi]
    ensures AllWhite(q, hi, c) && !IsWhite(q[hi - 1])
  {
    hide Trim;
    var lo, p := LeftEdge(q, 0), q[..c];
    var lo', hi' := TrimWindow(p);
    hi := hi';
    assert p[lo] == q[lo] && !IsWhite(q[lo]);
    assert lo' < hi' && p[lo'] == q[lo'];
    assert lo' == lo;
    assert p[lo..hi] == q[lo..hi];
    assert forall k :: hi <= k < c ==> q[k] == p[k];
  }

  /** The first field of a statement ends where the query's first field does, or with the statement. */
  lemma HeadField(q: string, lo: nat, hi: nat, c: nat)
    requires lo < hi <= c <= |q| && AllWhite(q, hi, c) && !IsWhite(q[hi - 1])
    ensures var r := Min(FieldEnd(q, lo), c) - lo; 0 <= r <= hi - lo && FieldEnd(q[lo..hi], 0) == r
  {
    hide FieldEnd;
    var stmt, r := q[lo..hi], Min(FieldEnd(q, lo), c) - lo;
    assert hi < c ==> IsWhite(q[hi]);
    forall k | 0 <= k < r ensures !IsWhite(stmt[k]) {
      assert stmt[k] == q[lo + k];
    }
    assert r < |stmt| ==> stmt[r] == q[lo + r];
    FieldEndIs(stmt, 0, r);
  }

  lemma NoWhiteStart(s: string)
    requires s != "" && !IsWhite(s[0])
    ensures LeftEdge(s, 0) == 0
  {}

  lemma KeywordOfHead(q: string, hi: nat, c: nat)
    requires NoComment(q)
    requires var lo := LeftEdge(q, 0); lo < hi <= c <= |q| && AllWhite(q, hi, c) && !IsWhite(q[hi - 1])
    ensures var lo := LeftEdge(q, 0);
            FirstKeyword(q[lo..hi]) == Upper(q[lo..Min(FieldEnd(q, lo), c)])
  {
    hide Upper, FieldEnd, StripComments, LeftEdge, AllWhite, NoComment;
    var lo := LeftEdge(q, 0);
    var stmt := q[lo..hi];
    SubNoComment(q, lo, hi);
    StripCommentsPlain(stmt, 0);
    assert stmt[0..] == stmt;
    assert stmt[0] == q[lo];
    NoWhiteStart(stmt);
    HeadField(q, lo, hi, c);
    SliceOfSlice(q, lo, hi, FieldEnd(stmt, 0));
  }

  /** The only statement of a comment-free single-statement query, and its first keyword. */
  lemma HeadOfStatement(q: string) returns (stmt: string)
    requires NoComment(q) && IsSingle(q) && LeftEdge(q, 0) < FirstCut(q, 0, Plain)
    ensures Split(q) == [stmt]
    ensures var lo := LeftEdge(q, 0);
            FirstKeyword(stmt) == Upper(q[lo..Min(FieldEnd(q, lo), FirstCut(q, 0, Plain))])
  {
    hide FirstCut, Kept, Trim, FirstKeyword, Upper, Segments;
    var c := FirstCut(q, 0, Plain);
    SingleMeansAtMostOne(q);
    var hi := TrimHead(q, c);
    KeptOne(q[..c]);
    KeywordOfHead(q, hi, c);
    stmt := Trim(q[..c]);
  }

  /** A keyword word is all letters. */
  lemma KeywordLetters(kw: string)
    requires IsWriteKeyword(kw) || IsWith(kw)
    ensures |kw| >= 4 && forall k :: 0 <= k < |kw| ==> IsLetter(kw[k])
  {}

  /** A word read at lo is a keyword only when it ends where the letters end. */
  lemma WordIsLeadWord(q: string, lo: nat, r: nat)
    requires lo <= r <= |q| && LetterEnd(q, lo) <= r
    ensures IsWriteKeyword(Upper(q[lo..r])) || IsWith(Upper(q[lo..r])) ==> r == LetterEnd(q, lo)
  {
    hide IsWriteKeyword, IsWith;
    var w, e := Upper(q[lo..r]), LetterEnd(q, lo);
    assert e < r ==> w[e - lo] == UpperChar(q[e]);
    if IsWriteKeyword(w) || IsWith(w) {
      KeywordLetters(w);
    }
  }

  /** What the full parser answers on a comment-free single statement. */
  lemma SlowAnswer(q: string)
    requires NoComment(q) && IsSingle(q)
    ensures SlowClassify(q) ==
            if SlowSees(q) && (IsWriteKeyword(LeadWord(q)) || (IsWith(LeadWord(q)) && HasWriteCte(q))) then Write else Read
  {
    hide IsWriteKeyword, IsWith, FirstCut, ContainsWriteKeyword, ExtractHint, FirstKeyword, Split, Upper;
    NoHint(q);
    var lo := LeftEdge(q, 0);
    var e, c := LetterEnd(q, lo), FirstCut(q, 0, Plain);
    CutFollowsWord(q);
    if lo < c {
      var stmt := HeadOfStatement(q);
      var r := Min(FieldEnd(q, lo), c);
      WordIsLeadWord(q, lo, r);
      assert (r == e) == SlowSees(q);
      assert Split(q)[1..] == [];
      assert AnyWrite(Split(q)) == IsWriteStatement(stmt);
      assert HasWriteCte(q) == ContainsWriteKeyword(stmt) by {
        assert Split(q)[0] == stmt;
      }
    } else {
      EmptyStatement(q);
      NotKeyword(LeadWord(q));
    }
  }

  /** The first cut lies after the leading word, right behind it when a semicolon follows. */
  lemma CutFollowsWord(q: string)
    ensures var e := LetterEnd(q, LeftEdge(q, 0)); var c := FirstCut(q, 0, Plain);
            e <= c && (e < |q| && q[e] == ';' ==> c == e)
  {
    CutAfterWords(q, 0, LetterEnd(q, LeftEdge(q, 0)));
  }

  lemma EmptyStatement(q: string)
    requires IsSingle(q) && FirstCut(q, 0, Plain) <= LeftEdge(q, 0)
    ensures Split(q) == []
    ensures |LeadWord(q)| == 0
  {
    hide FirstCut, Kept, Trim, Segments;
    var c := FirstCut(q, 0, Plain);
    SingleMeansAtMostOne(q);
    KeptOne(q[..c]);
    TrimEmpty(q[..c]);
    assert forall k :: 0 <= k < c ==> q[..c][k] == q[k];
    CutFollowsWord(q);
  }

  /** What classifyFast answers on a query it does not hand over. */
  lemma FastAnswer(q: string)
    requires BlankEdge(q, 0) < |q| && !Contains(q, "/*") && !Contains(q, "--") && IsSingle(q)
    ensures FastClassify(q) ==
            if !FastSees(q) then Some(Read)
            else if IsWriteKeyword(LeadWord(q)) then Some(Write)
            else if IsWith(LeadWord(q)) then None
            else Some(Read)
  {
    hide IsWriteKeyword, IsWith, IsSingle, Contains, Upper;
    var lo, i := LeftEdge(q, 0), BlankEdge(q, 0);
    var j := FastWordEnd(q, i);
    if i < lo {
      assert IsWhite(q[i]);
      assert Upper(q[i..j])[0] == UpperChar(q[i]);
      NotKeyword(Upper(q[i..j]));
    } else {
      assert i == lo;
      WordIsLeadWord(q, lo, j);
    }
  }

  /** The fast path of Classify agrees with the full parser exactly when the query's leading
      keyword is one both paths see. */
  lemma FastClassifyExact(q: string)
    requires FastClassify(q).Some?
    ensures FastClassify(q).value == SlowClassify(q) <==> !Misread(q)
  {
    hide IsWriteKeyword, IsWith, IsSingle, Contains, Upper, Split, ExtractHint, FastSees, SlowSees, LeadWord;
    if BlankEdge(q, 0) < |q| {
      CommentFree(q);
      FastAnswer(q);
      SlowAnswer(q);
    } else {
      BlankAnswer(q);
    }
  }

  lemma BlankAnswer(q: string)
    requires BlankEdge(q, 0) == |q|
    ensures SlowClassify(q) == Read && !Misread(q)
  {
    hide IsWriteKeyword, IsWith, FirstCut, ContainsWriteKeyword, ExtractHint, Split, Upper;
    assert NoComment(q);
    assert LeftEdge(q, 0) == |q|;
    assert IsSingle(q);
    NoHint(q);
    EmptyStatement(q);
    NotKeyword(LeadWord(q));
  }

  /** A text without the characters that open comments or end statements. */
  lemma PlainQuery(q: string)
    requires 0 < |q| && forall k :: 0 <= k < |q| ==> q[k] != '/' && q[k] != '-' && q[k] != ';'
    ensures !Contains(q, "/*") && !Contains(q, "--") && IsSingle(q)
  {
    assert "/*"[0] == '/' && "--"[0] == '-' && ";"[0] == ';';
  }

  /** DROP followed by a character that ends no word for at least one of the paths. */
  lemma DropWith(q: string)
    requires |q| == 5 && q[..4] == "DROP" && (q[4] == '\r' || q[4] == '(')
    ensures LeftEdge(q, 0) == 0 && LetterEnd(q, 0) == 4 && IsWriteKeyword(LeadWord(q))
    ensures !Contains(q, "/*") && !Contains(q, "--") && IsSingle(q)
  {
    hide Contains, IsSingle, IsWriteKeyword, LeftEdge, LetterEnd, Upper;
    var w := q[..4];
    assert q[0] == w[0] && q[1] == w[1] && q[2] == w[2] && q[3] == w[3];
    assert q[0..4] == "DROP";
    NoWhiteStart(q);
    LetterEndIs(q, 0, 4);
    DropIsKeyword();
    PlainQuery(q);
  }

  lemma DropIsKeyword()
    ensures Upper("DROP") == "DROP" && IsWriteKeyword("DROP")
  {
    assert WriteKeywords[5] == "DROP";
  }

  lemma {:induction false} LetterEndIs(q: string, i: nat, r: nat)
    requires i <= r <= |q| && (forall k :: i <= k < r ==> IsLetter(q[k])) && (r < |q| ==> !IsLetter(q[r]))
    ensures LetterEnd(q, i) == r
    decreases r - i
  {
    if i < r {
      LetterEndIs(q, i + 1, r);
    }
  }

  /** Two queries on which the paths part: a carriage return and a parenthesis after the keyword. */
  lemma FastClassifyCounterexamples()
    ensures FastClassify("DROP\r") == Some(Read) && SlowClassify("DROP\r") == Write
    ensures FastClassify("DROP(") == Some(Write) && SlowClassify("DROP(") == Read
  {
    hide IsSingle, Contains, FastClassify, SlowClassify, IsWith, LeadWord, IsWriteKeyword, HasWriteCte;
    var q, p := "DROP\r", "DROP(";
    assert q[..4] == "DROP" && p[..4] == "DROP";
    DropWith(q);
    FastAnswer(q);
    FastClassifyExact(q);
    DropWith(p);
    FastAnswer(p);
    FastClassifyExact(p);
  }
}
