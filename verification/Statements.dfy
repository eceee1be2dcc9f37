/** splitStatements and isSingleStatement of internal/router/router.go: cutting a query at its
    top-level semicolons, where quotes, dollar quotes and (nested) comments hide semicolons. */
module Statements {
  import opened SqlText

  /** Whether the scanner stands inside a single- or double-quoted region. */
  datatype Mode = Plain | Single | Double

  // ---------------------------------------------------------------- lexemes

  /** End of a line comment, past the newline that ends it. */
  function LineEnd(q: string, i: nat): (r: nat)
    requires i <= |q|
    ensures i <= r <= |q| && (i < |q| ==> i < r)
    decreases |q| - i
  {
    if i == |q| then i else if q[i] == '\n' then i + 1 else LineEnd(q, i + 1)
  }

  /** End of the block comment when, at position i, depth comments are open. */
  function BlockEnd(q: string, i: nat, depth: nat): (r: nat)
    requires i <= |q|
    ensures i <= r <= |q|
    decreases |q| - i
  {
    if i == |q| || depth == 0 then i
    else if Pair(q, i, '/', '*') then BlockEnd(q, i + 2, depth + 1)
    else if Pair(q, i, '*', '/') then BlockEnd(q, i + 2, depth - 1)
    else BlockEnd(q, i + 1, depth)
  }

  /** The lexeme at position i: its end and the mode after it. */
  function Lexeme(q: string, i: nat, m: Mode): (r: (nat, Mode))
    requires i < |q|
    ensures i < r.0 <= |q|
  {
    if m.Plain? && TagEnd(q, i) > i then (DollarEnd(q, i), Plain)
    else if m.Plain? && Pair(q, i, '-', '-') then (LineEnd(q, i), Plain)
    else if m.Plain? && Pair(q, i, '/', '*') then (BlockEnd(q, i + 2, 1), Plain)
    else if q[i] == '\'' && !m.Double? then
      if m.Plain? then (i + 1, Single)
      else if Pair(q, i, '\'', '\'') then (i + 2, Single)
      else (i + 1, Plain)
    else if q[i] == '"' && !m.Single? then (i + 1, if m.Double? then Plain else Double)
    else (i + 1, m)
  }

  /** Position of the first top-level semicolon from i on, or the end. */
  function FirstCut(q: string, i: nat, m: Mode): (r: nat)
    requires i <= |q|
    ensures i <= r <= |q|
    ensures r < |q| ==> q[r] == ';'
    decreases |q| - i
  {
    if i == |q| || (m.Plain? && q[i] == ';') then i
    else
      var (j, m') := Lexeme(q, i, m);
      FirstCut(q, j, m')
  }

  /** The pieces of q[i..] between top-level semicolons, untrimmed. */
  function Segments(q: string, i: nat): (r: seq<string>)
    requires i <= |q|
    ensures |r| > 0
    decreases |q| - i
  {
    var c := FirstCut(q, i, Plain);
    [q[i..c]] + if c == |q| then [] else Segments(q, c + 1)
  }

  function Kept(segs: seq<string>): seq<string> {
    if segs == [] then []
    else (if Trim(segs[0]) == "" then [] else [Trim(segs[0])]) + Kept(segs[1..])
  }

  /** What splitStatements returns: the trimmed pieces that are not empty. */
  function Split(query: string): seq<string> {
    Kept(Segments(query, 0))
  }

  // ---------------------------------------------------------------- the scanning method

  /** Statements still to come when q[a..i] has been collected and the rest is unread. */
  function SplitFrom(q: string, a: nat, i: nat, m: Mode): seq<string>
    requires a <= i <= |q|
  {
    var c := FirstCut(q, i, m);
    Kept([q[a..c]] + if c == |q| then [] else Segments(q, c + 1))
  }

  lemma SplitFromStart(q: string)
    ensures SplitFrom(q, 0, 0, Plain) == Split(q)
  {
    hide FirstCut, Kept;
  }

  lemma SplitFromLexeme(q: string, a: nat, i: nat, m: Mode)
    requires a <= i < |q| && !(m.Plain? && q[i] == ';')
    ensures SplitFrom(q, a, i, m) == SplitFrom(q, a, Lexeme(q, i, m).0, Lexeme(q, i, m).1)
  {
    hide Lexeme, Kept, Segments;
  }

  lemma SplitFromCut(q: string, a: nat, i: nat)
    requires a <= i < |q| && q[i] == ';'
    ensures SplitFrom(q, a, i, Plain) == Kept([q[a..i]]) + SplitFrom(q, i + 1, i + 1, Plain)
  {
    hide Lexeme, Kept;
    KeptCons(q[a..i], Segments(q, i + 1));
  }

  lemma SplitFromEnd(q: string, a: nat, m: Mode)
    requires a <= |q|
    ensures SplitFrom(q, a, |q|, m) == Kept([q[a..|q|]])
  {
    hide Lexeme, Kept, Segments;
    assert [q[a..|q|]] + [] == [q[a..|q|]];
  }

  /** splitStatements: one left-to-right scan that collects the current statement in a buffer. */
  method SplitStatements(query: string) returns (stmts: seq<string>)
    ensures stmts == Split(query)
  {
    hide Lexeme, Kept, Segments, SplitFrom;
    SplitFromStart(query);
    stmts := [];
    var current := "";
    var mode := Plain;
    var i := 0;
    ghost var a := 0;  // where the current statement started
    while i < |query|
      invariant 0 <= a <= i <= |query|
      invariant current == query[a..i]
      invariant stmts + SplitFrom(query, a, i, mode) == Split(query)
    {
      if query[i] == ';' && mode.Plain? {
        SplitFromCut(query, a, i);
        stmts := Flush(stmts, current);
        current := "";
        i := i + 1;
        a := i;
      } else {
        SplitFromLexeme(query, a, i, mode);
        var j, m := NextLexeme(query, i, mode);
        current := current + query[i..j];
        i, mode := j, m;
      }
    }
    SplitFromEnd(query, a, mode);
    stmts := Flush(stmts, current);
  }

  /** Appends the trimmed buffer unless nothing is left of it. */
  method Flush(stmts: seq<string>, current: string) returns (r: seq<string>)
    ensures r == stmts + Kept([current])
  {
    var trimmed := Trim(current);
    r := if trimmed != "" then stmts + [trimmed] else stmts;
  }

  /** One round of the scanning loop for anything but a top-level semicolon. */
  method NextLexeme(query: string, i: nat, mode: Mode) returns (j: nat, m: Mode)
    requires i < |query|
    ensures (j, m) == Lexeme(query, i, mode)
  {
    var ch := query[i];
    j, m := i + 1, mode;
    if ch == '$' && mode.Plain? {
      var tag, ok := ParseDollarTag(query, i);
      if ok {
        var e := Find(query, tag, i + |tag|);
        j := if e >= 0 then e + |tag| else |query|;
        return;
      }
    }
    if ch == '-' && mode.Plain? && i + 1 < |query| && query[i + 1] == '-' {
      j := LineComment(query, i);
    } else if ch == '/' && mode.Plain? && i + 1 < |query| && query[i + 1] == '*' {
      j := BlockComment(query, i);
    } else if ch == '\'' && !mode.Double? {
      if mode.Plain? {
        m := Single;
      } else if i + 1 < |query| && query[i + 1] == '\'' {
        j := i + 2;
      } else {
        m := Plain;
      }
    } else if ch == '"' && !mode.Single? {
      m := if mode.Double? then Plain else Double;
    }
  }

  lemma KeptOne(seg: string)
    ensures Kept([seg]) == if Trim(seg) == "" then [] else [Trim(seg)]
  {
    hide Trim;
  }

  lemma KeptCons(seg: string, segs: seq<string>)
    ensures Kept([seg] + segs) == Kept([seg]) + Kept(segs)
  {
    assert ([seg] + segs)[1..] == segs;
  }

  /** Consumes a line comment through its newline. */
  method LineComment(query: string, i: nat) returns (j: nat)
    requires i < |query|
    ensures j == LineEnd(query, i)
  {
    j := i;
    while j < |query| && query[j] != '\n'
      invariant i <= j <= |query|
      invariant LineEnd(query, i) == LineEnd(query, j)
    {
      j := j + 1;
    }
    if j < |query| {
      j := j + 1;
    }
  }

  /** Consumes a block comment, counting nested ones. */
  method BlockComment(query: string, i: nat) returns (j: nat)
    requires Pair(query, i, '/', '*')
    ensures j == BlockEnd(query, i + 2, 1)
  {
    var depth := 1;
    j := i + 2;
    while j < |query| && depth > 0
      invariant i + 2 <= j <= |query|
      invariant BlockEnd(query, i + 2, 1) == BlockEnd(query, j, depth)
    {
      if j + 1 < |query| && query[j] == '/' && query[j + 1] == '*' {
        depth := depth + 1;
        j := j + 2;
      } else if j + 1 < |query| && query[j] == '*' && query[j + 1] == '/' {
        depth := depth - 1;
        j := j + 2;
      } else {
        j := j + 1;
      }
    }
  }

  // ---------------------------------------------------------------- lossless

  function JoinSemi(segs: seq<string>): string
    requires |segs| > 0
  {
    if |segs| == 1 then segs[0] else segs[0] + ";" + JoinSemi(segs[1..])
  }

  lemma SliceAround(q: string, i: nat, c: nat)
    requires i <= c < |q|
    ensures q[i..] == q[i..c] + [q[c]] + q[c + 1..]
  {}

  lemma JoinCons(seg: string, segs: seq<string>)
    requires |segs| > 0
    ensures JoinSemi([seg] + segs) == seg + [';'] + JoinSemi(segs)
  {
    assert ([seg] + segs)[1..] == segs;
  }

  lemma {:induction false} JoinSegments(q: string, i: nat)
    requires i <= |q|
    ensures JoinSemi(Segments(q, i)) == q[i..]
    decreases |q| - i
  {
    hide FirstCut, JoinSemi, Segments;
    var c := FirstCut(q, i, Plain);
    if c < |q| {
      JoinSegments(q, c + 1);
      JoinCons(q[i..c], Segments(q, c + 1));
      SliceAround(q, i, c);
      SegmentsAtCut(q, i);
    } else {
      WholeIsOneSegment(q, i);
      JoinOne(q[i..]);
    }
  }

  lemma SegmentsAtCut(q: string, i: nat)
    requires i <= |q| && FirstCut(q, i, Plain) < |q|
    ensures var c := FirstCut(q, i, Plain); Segments(q, i) == [q[i..c]] + Segments(q, c + 1)
  {
    hide FirstCut;
  }

  lemma JoinOne(seg: string)
    ensures JoinSemi([seg]) == seg
  {}

  // ---------------------------------------------------------------- pieces on their own

  /** A piece of a query that may be read on its own without waking up a hidden semicolon: it
      ends with the query, before a semicolon, or before white space that ends such a piece. */
  predicate Detached(q: string, a: nat, b: nat) {
    a <= b <= |q| && (b == |q| || q[b] == ';' || (IsWhite(q[b]) && (a < b ==> !IsWhite(q[b - 1]))))
  }

  /** The smaller of two positions. */
  function Min(x: nat, y: nat): nat { if x <= y then x else y }

  lemma TagDetached(q: string, a: nat, b: nat, i: nat)
    requires Detached(q, a, b) && a <= i <= b
    ensures TagEnd(q, i) <= b
    ensures TagEnd(q[a..b], i - a) == TagEnd(q, i) - a
  {
    hide TagRun;
    if i + 1 < b {
      TagRunDetached(q, a, b, i + 1);
    }
  }

  lemma TagRunDetached(q: string, a: nat, b: nat, i: nat)
    requires a <= i <= b <= |q|
    ensures TagRun(q[a..b], i - a) == Min(TagRun(q, i), b) - a
  {
    TagRunIs(q[a..b], i - a, Min(TagRun(q, i), b) - a);
  }

  /** A pair of characters lies inside a detached piece or outside it. */
  lemma PairDetached(q: string, a: nat, b: nat, i: nat, c: char, d: char)
    requires Detached(q, a, b) && a <= i < b
    requires d != ';' && !IsWhite(d)
    ensures Pair(q[a..b], i - a, c, d) == Pair(q, i, c, d)
    ensures Pair(q, i, c, d) ==> i + 2 <= b
  {}

  lemma DollarDetached(q: string, a: nat, b: nat, i: nat)
    requires Detached(q, a, b) && a <= i <= b && TagEnd(q, i) > i
    ensures TagEnd(q[a..b], i - a) > i - a
    ensures DollarEnd(q[a..b], i - a) == Min(DollarEnd(q, i), b) - a
  {
    hide TagEnd, Find;
    TagDetached(q, a, b, i);
    var u, t := q[a..b], TagEnd(q, i);
    assert forall k :: i <= k < t ==> q[k] == u[k - a];
    assert u[i - a..t - a] == q[i..t];
    FindDetached(q, a, b, q[i..t], t);
  }

  lemma FindDetached(q: string, a: nat, b: nat, pat: string, i: nat)
    requires a <= i <= b <= |q|
    ensures var e, f := Find(q, pat, i), Find(q[a..b], pat, i - a);
            f == if 0 <= e <= b - |pat| then e - a else -1
  {
    var u := q[a..b];
    var e, f := Find(q, pat, i), Find(u, pat, i - a);
    assert f >= 0 ==> OccursAt(q, pat, f + a);
    assert 0 <= e <= b - |pat| ==> OccursAt(u, pat, e - a);
  }

  lemma {:induction false} LineDetached(q: string, a: nat, b: nat, i: nat)
    requires a <= i <= b <= |q|
    ensures LineEnd(q[a..b], i - a) == Min(LineEnd(q, i), b) - a
    decreases b - i
  {
    if i < b && q[i] != '\n' {
      LineDetached(q, a, b, i + 1);
    }
  }

  lemma DetachedBounds(q: string, a: nat, b: nat)
    requires Detached(q, a, b)
    ensures a <= b <= |q|
  {}

  lemma BlockEndUnfold(q: string, i: nat, depth: nat)
    requires i <= |q|
    ensures BlockEnd(q, i, depth) ==
            if i == |q| || depth == 0 then i
            else if Pair(q, i, '/', '*') then BlockEnd(q, i + 2, depth + 1)
            else if Pair(q, i, '*', '/') then BlockEnd(q, i + 2, depth - 1)
            else BlockEnd(q, i + 1, depth)
  {}

  lemma {:induction false} BlockDetached(q: string, a: nat, b: nat, i: nat, depth: nat)
    requires Detached(q, a, b) && a <= i <= b
    ensures BlockEnd(q[a..b], i - a, depth) == Min(BlockEnd(q, i, depth), b) - a
    decreases b - i
  {
    hide Pair, BlockEnd, Detached;
    DetachedBounds(q, a, b);
    BlockEndUnfold(q, i, depth);
    BlockEndUnfold(q[a..b], i - a, depth);
    if i < b && depth > 0 {
      PairDetached(q, a, b, i, '/', '*');
      PairDetached(q, a, b, i, '*', '/');
      if Pair(q, i, '/', '*') {
        BlockDetached(q, a, b, i + 2, depth + 1);
      } else if Pair(q, i, '*', '/') {
        BlockDetached(q, a, b, i + 2, depth - 1);
      } else {
        BlockDetached(q, a, b, i + 1, depth);
      }
    }
  }

  lemma LexemeDetached(q: string, a: nat, b: nat, i: nat, m: Mode)
    requires Detached(q, a, b) && a <= i < b
    ensures Lexeme(q[a..b], i - a, m).0 == Min(Lexeme(q, i, m).0, b) - a
    ensures Lexeme(q[a..b], i - a, m).1 == Lexeme(q, i, m).1
  {
    hide TagEnd, DollarEnd, LineEnd, BlockEnd;
    TagDetached(q, a, b, i);
    if m.Plain? && TagEnd(q, i) > i {
      DollarDetached(q, a, b, i);
    } else if m.Plain? && Pair(q, i, '-', '-') {
      LineDetached(q, a, b, i);
    } else if m.Plain? && Pair(q, i, '/', '*') {
      BlockDetached(q, a, b, i + 2, 1);
    }
  }

  /** Reading a detached piece on its own finds the cuts the whole query has in it. */
  lemma {:induction false} CutDetached(q: string, a: nat, b: nat, i: nat, m: Mode)
    requires Detached(q, a, b) && a <= i <= b
    requires FirstCut(q, i, m) >= b
    ensures FirstCut(q[a..b], i - a, m) == b - a
    decreases b - i
  {
    hide Lexeme;
    if i < b {
      LexemeDetached(q, a, b, i, m);
      var (j, m') := Lexeme(q, i, m);
      if j <= b {
        CutDetached(q, a, b, j, m');
      }
    }
  }

  // ---------------------------------------------------------------- main results

  lemma {:induction false} SegmentsWhole(q: string, i: nat)
    requires i <= |q|
    ensures forall seg :: seg in Segments(q, i) ==> FirstCut(seg, 0, Plain) == |seg|
    decreases |q| - i
  {
    hide FirstCut;
    var c := FirstCut(q, i, Plain);
    CutDetached(q, i, c, i, Plain);
    if c < |q| {
      SegmentsWhole(q, c + 1);
    }
  }

  /** The cut loses nothing and misses nothing: joining the segments with semicolons gives the
      query back, and no segment holds a further top-level semicolon. */
  lemma SplitIsLossless(query: string)
    ensures JoinSemi(Segments(query, 0)) == query
    ensures forall seg :: seg in Segments(query, 0) ==> Segments(seg, 0) == [seg]
  {
    hide FirstCut;
    JoinSegments(query, 0);
    SegmentsWhole(query, 0);
    forall seg | seg in Segments(query, 0) ensures Segments(seg, 0) == [seg] {
      assert seg[0..|seg|] == seg;
    }
  }

  lemma WholeIsOneSegment(q: string, i: nat)
    requires i <= |q| && FirstCut(q, i, Plain) == |q|
    ensures Segments(q, i) == [q[i..]]
  {
    hide FirstCut;
    assert q[i..|q|] == q[i..];
  }

  lemma QuietStep(q: string, i: nat)
    requires i < |q| && (IsWhite(q[i]) || IsLetter(q[i]))
    ensures FirstCut(q, i, Plain) == FirstCut(q, i + 1, Plain)
  {
    hide TagRun, Find, BlockEnd, LineEnd;
    assert Lexeme(q, i, Plain) == (i + 1, Plain);
  }

  /** A top-level scan passes over white space and letters one by one. */
  lemma {:induction false} CutAfterWords(q: string, i: nat, j: nat)
    requires i <= j <= |q| && forall k :: i <= k < j ==> IsWhite(q[k]) || IsLetter(q[k])
    ensures FirstCut(q, i, Plain) == FirstCut(q, j, Plain)
    decreases j - i
  {
    hide FirstCut;
    if i < j {
      QuietStep(q, i);
      CutAfterWords(q, i + 1, j);
    }
  }

  /** Trimming a text without top-level semicolons gives a single statement or nothing. */
  lemma TrimmedIsAtom(seg: string)
    requires FirstCut(seg, 0, Plain) == |seg|
    ensures Trim(seg) != "" ==> Split(Trim(seg)) == [Trim(seg)]
  {
    hide FirstCut, Kept, Segments, Trim;
    var lo, hi := TrimWindow(seg);
    var stmt := seg[lo..hi];
    if lo < hi {
      CutAfterWords(seg, 0, lo);
      CutDetached(seg, lo, hi, lo, Plain);
      assert stmt[0] == seg[lo] && stmt[|stmt| - 1] == seg[hi - 1];
      TrimFixed(stmt);
      WholeIsOneSegment(stmt, 0);
      KeptOne(stmt);
      assert stmt[0..] == stmt;
    }
  }

  lemma {:induction false} KeptMembers(segs: seq<string>, stmt: string)
    requires stmt in Kept(segs)
    ensures exists seg :: seg in segs && Trim(seg) == stmt && stmt != ""
  {
    if stmt in Kept(segs[1..]) {
      KeptMembers(segs[1..], stmt);
    } else {
      assert segs[0] in segs;
    }
  }

  /** Every returned statement splits to just itself. */
  lemma StatementsAreAtoms(query: string, stmt: string)
    requires stmt in Split(query)
    ensures Split(stmt) == [stmt]
  {
    SegmentsWhole(query, 0);
    KeptMembers(Segments(query, 0), stmt);
    var seg :| seg in Segments(query, 0) && Trim(seg) == stmt && stmt != "";
    TrimmedIsAtom(seg);
  }

  // ---------------------------------------------------------------- isSingleStatement

  /** isSingleStatement: at most white space follows the first semicolon, hidden or not. */
  predicate IsSingle(query: string) {
    var idx := Find(query, ";", 0);
    idx < 0 || Trim(query[idx + 1..]) == ""
  }

  lemma {:induction false} NoSemicolonNoCut(q: string, i: nat, m: Mode)
    requires i <= |q|
    requires forall k :: i <= k < |q| ==> q[k] != ';'
    ensures FirstCut(q, i, m) == |q|
    decreases |q| - i
  {
    if i < |q| {
      var (j, m') := Lexeme(q, i, m);
      NoSemicolonNoCut(q, j, m');
    }
  }

  /** A query isSingleStatement accepts has at most one statement: the text before its first
      semicolon, or the whole query when that semicolon is hidden. */
  lemma SingleMeansAtMostOne(query: string)
    requires IsSingle(query)
    ensures |Split(query)| <= 1
    ensures Split(query) == Kept([query[..FirstCut(query, 0, Plain)]])
  {
    hide FirstCut, Kept, Trim;
    var c, idx := FirstCut(query, 0, Plain), Find(query, ";", 0);
    assert query[0..c] == query[..c];
    KeptOne(query[..c]);
    if c < |query| {
      assert OccursAt(query, ";", c);
      var rest := query[idx + 1..];
      TrimEmpty(rest);
      assert AllWhite(query, c + 1, |query|) by {
        assert forall k :: c + 1 <= k < |query| ==> query[k] == rest[k - idx - 1];
      }
      NoSemicolonNoCut(query, c + 1, Plain);
      TrimEmpty(query[c + 1..]);
      KeptOne(query[c + 1..]);
      WholeIsOneSegment(query, c + 1);
      KeptCons(query[..c], [query[c + 1..]]);
    } else {
      WholeIsOneSegment(query, 0);
      assert query[0..] == query[..c];
    }
  }
}
