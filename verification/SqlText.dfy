/** Character-level helpers shared by the statement splitter, the router and the placeholder
    substitution: white space, case folding, substring search and dollar-quote tags.
    A character stands for one byte of ASCII text. */
module SqlText {

  /** The ASCII part of Go's unicode.IsSpace, used by strings.TrimSpace and strings.Fields. */
  predicate IsWhite(c: char) {
    c == ' ' || c == '\t' || c == '\n' || c == '\r' || c == VT || c == FF
  }

  const VT: char := 11 as char
  const FF: char := 12 as char

  /** White space is the space and the control characters from the tab to the carriage return. */
  lemma WhiteSpace(c: char)
    ensures IsWhite(c) <==> c as int == 32 || 9 <= c as int <= 13
  {}

  predicate AllWhite(s: string, lo: nat, hi: nat)
    requires lo <= hi <= |s|
  {
    forall i :: lo <= i < hi ==> IsWhite(s[i])
  }

  /** First position from i on that is not white space, or the end. */
  function LeftEdge(s: string, i: nat): (r: nat)
    requires i <= |s|
    ensures i <= r <= |s| && AllWhite(s, i, r)
    ensures r < |s| ==> !IsWhite(s[r])
    decreases |s| - i
  {
    if i < |s| && IsWhite(s[i]) then LeftEdge(s, i + 1) else i
  }

  /** The left edge is determined by what is around it. */
  lemma {:induction false} LeftEdgeIs(s: string, i: nat, r: nat)
    requires i <= r <= |s| && AllWhite(s, i, r) && (r < |s| ==> !IsWhite(s[r]))
    ensures LeftEdge(s, i) == r
    decreases r - i
  {
    if i < r {
      LeftEdgeIs(s, i + 1, r);
    }
  }

  /** Where the trailing white space of s[lo..hi] starts. */
  function RightEdge(s: string, lo: nat, hi: nat): (r: nat)
    requires lo <= hi <= |s|
    ensures lo <= r <= hi && AllWhite(s, r, hi)
    ensures lo < r ==> !IsWhite(s[r - 1])
  {
    if lo < hi && IsWhite(s[hi - 1]) then RightEdge(s, lo, hi - 1) else hi
  }

  /** strings.TrimSpace on ASCII text. */
  function Trim(s: string): string {
    var lo := LeftEdge(s, 0);
    s[lo..RightEdge(s, lo, |s|)]
  }

  /** The window of s that trimming keeps. */
  lemma TrimWindow(s: string) returns (lo: nat, hi: nat)
    ensures lo <= hi <= |s| && Trim(s) == s[lo..hi]
    ensures AllWhite(s, 0, lo) && AllWhite(s, hi, |s|)
    ensures lo < hi ==> !IsWhite(s[lo]) && !IsWhite(s[hi - 1])
  {
    lo := LeftEdge(s, 0);
    hi := RightEdge(s, lo, |s|);
  }

  /** Trimming leaves nothing exactly when the text is all white space. */
  lemma TrimEmpty(s: string)
    ensures Trim(s) == "" <==> AllWhite(s, 0, |s|)
  {}

  /** A text that neither starts nor ends with white space is its own trim. */
  lemma TrimFixed(s: string)
    requires s != "" && !IsWhite(s[0]) && !IsWhite(s[|s| - 1])
    ensures Trim(s) == s
  {}

  predicate IsLetter(c: char) {
    'a' <= c <= 'z' || 'A' <= c <= 'Z'
  }

  function UpperChar(c: char): char {
    if 'a' <= c <= 'z' then (c as int - 32) as char else c
  }

  /** The twenty-six letters change case, and nothing else does. */
  lemma UpperLetters(k: nat, c: char)
    requires k < 26
    ensures UpperChar("abcdefghijklmnopqrstuvwxyz"[k]) == "ABCDEFGHIJKLMNOPQRSTUVWXYZ"[k]
    ensures c !in "abcdefghijklmnopqrstuvwxyz" ==> UpperChar(c) == c
  {
    var lower, upper := "abcdefghijklmnopqrstuvwxyz", "ABCDEFGHIJKLMNOPQRSTUVWXYZ";
    assert |lower| == 26 && |upper| == 26;
    Alphabet(k);
    if 'a' <= c <= 'z' {
      var n := c as int - 97;
      Alphabet(n);
      assert lower[n] == c;
    }
  }

  lemma Alphabet(k: nat)
    requires k < 26
    ensures "abcdefghijklmnopqrstuvwxyz"[k] as int == 97 + k && "ABCDEFGHIJKLMNOPQRSTUVWXYZ"[k] as int == 65 + k
  {}

  /** strings.ToUpper on ASCII text. */
  function Upper(s: string): (r: string)
    ensures |r| == |s|
    ensures forall i :: 0 <= i < |s| ==> r[i] == UpperChar(s[i])
  {
    if s == [] then [] else [UpperChar(s[0])] + Upper(s[1..])
  }

  lemma SliceMore(s: string, lo: nat, i: nat)
    requires lo <= i < |s|
    ensures s[lo..i] + [s[i]] == s[lo..i + 1]
  {}

  lemma SliceOfSlice(s: string, lo: nat, hi: nat, n: nat)
    requires lo <= hi <= |s| && n <= hi - lo
    ensures s[lo..hi][0..n] == s[lo..lo + n]
  {}

  predicate StartsWith(s: string, prefix: string) {
    |prefix| <= |s| && s[..|prefix|] == prefix
  }

  /** pat stands at position i of s. */
  predicate OccursAt(s: string, pat: string, i: int) {
    0 <= i <= |s| - |pat| && forall k :: 0 <= k < |pat| ==> pat[k] == s[i + k]
  }

  /** strings.Index from position i on: the least position where pat occurs, or -1. */
  function Find(s: string, pat: string, i: nat): (r: int)
    ensures r == -1 || (i <= r && OccursAt(s, pat, r))
    ensures forall j :: i <= j && OccursAt(s, pat, j) ==> 0 <= r <= j
    decreases |s| - i
  {
    if i + |pat| > |s| then -1
    else if OccursAt(s, pat, i) then i
    else Find(s, pat, i + 1)
  }

  predicate Contains(s: string, pat: string) {
    Find(s, pat, 0) >= 0
  }

  /** Two characters at position i. */
  predicate Pair(q: string, i: nat, c: char, d: char) {
    i + 1 < |q| && q[i] == c && q[i + 1] == d
  }

  // ---------------------------------------------------------------- dollar-quote tags

  predicate IsTagStart(c: char) {
    IsLetter(c) || c == '_'
  }

  predicate IsTagChar(c: char) {
    IsTagStart(c) || '0' <= c <= '9'
  }

  /** End of the run of tag characters that starts at i. */
  function TagRun(s: string, i: nat): (r: nat)
    requires i <= |s|
    ensures i <= r <= |s|
    ensures forall k :: i <= k < r ==> IsTagChar(s[k])
    ensures r < |s| ==> !IsTagChar(s[r])
    decreases |s| - i
  {
    if i == |s| || !IsTagChar(s[i]) then i else TagRun(s, i + 1)
  }

  /** The tag-character run is determined by where it ends. */
  lemma {:induction false} TagRunIs(s: string, i: nat, r: nat)
    requires i <= r <= |s|
    requires forall k :: i <= k < r ==> IsTagChar(s[k])
    requires r < |s| ==> !IsTagChar(s[r])
    ensures TagRun(s, i) == r
    decreases r - i
  {
    if i < r {
      TagRunIs(s, i + 1, r);
    }
  }

  /** End of the dollar-quote tag ($$ or $tag$) that starts at i, or i when there is none. */
  function TagEnd(s: string, i: nat): (r: nat)
    requires i <= |s|
    ensures i <= r <= |s|
    ensures r > i ==> i + 2 <= r && s[i] == '$' && s[r - 1] == '$'
    ensures r > i ==> forall k :: i < k < r - 1 ==> IsTagChar(s[k])
  {
    if i + 1 >= |s| || s[i] != '$' then i
    else if s[i + 1] == '$' then i + 2
    else if !IsTagStart(s[i + 1]) then i
    else
      var j := TagRun(s, i + 1);
      if j < |s| && s[j] == '$' then j + 1 else i
  }

  /** s[i..e] is a dollar-quote tag: two dollar signs around nothing or around a name (section 4.1.2.4
      of the PostgreSQL 16 documentation). */
  predicate IsTag(s: string, i: nat, e: nat) {
    && i + 2 <= e <= |s| && s[i] == '$' && s[e - 1] == '$'
    && (forall k :: i < k < e - 1 ==> 'a' <= s[k] <= 'z' || 'A' <= s[k] <= 'Z' || s[k] == '_' || '0' <= s[k] <= '9')
    && (i + 2 < e ==> !('0' <= s[i + 1] <= '9'))
  }

  /** A tag is found exactly where there is one. */
  lemma TagEndExact(s: string, i: nat, e: nat)
    requires i <= |s|
    ensures IsTag(s, i, e) <==> i < e == TagEnd(s, i)
  {
    hide TagRun;
    if IsTag(s, i, e) && i + 2 < e {
      TagRunIs(s, i + 1, e - 1);
    }
  }

  /** Where the tag at i occurs again, or -1. */
  function Closing(s: string, i: nat): (r: int)
    requires i <= |s| && TagEnd(s, i) > i
    ensures r == -1 || (TagEnd(s, i) <= r && r + (TagEnd(s, i) - i) <= |s|)
  {
    Find(s, s[i..TagEnd(s, i)], TagEnd(s, i))
  }

  /** End of the dollar-quoted region opened at i; an unclosed one runs to the end. */
  function DollarEnd(s: string, i: nat): (r: nat)
    requires i <= |s| && TagEnd(s, i) > i
    ensures TagEnd(s, i) <= r <= |s|
  {
    if Closing(s, i) < 0 then |s| else Closing(s, i) + (TagEnd(s, i) - i)
  }

  /** parseDollarTag: does query have a dollar-quote tag at position i, and which one? */
  method ParseDollarTag(query: string, i: nat) returns (tag: string, ok: bool)
    ensures i > |query| ==> !ok
    ensures i <= |query| ==> ok == (TagEnd(query, i) > i)
    ensures ok ==> tag == query[i..TagEnd(query, i)]
  {
    if i >= |query| || query[i] != '$' {
      return "", false;
    }
    if i + 1 < |query| && query[i + 1] == '$' {
      return "$$", true;
    }
    var j := i + 1;
    if j >= |query| || !IsTagStart(query[j]) {
      return "", false;
    }
    j := j + 1;
    while j < |query| && IsTagChar(query[j])
      invariant i + 2 <= j <= |query|
      invariant forall k :: i < k < j ==> IsTagChar(query[k])
    {
      j := j + 1;
    }
    TagRunIs(query, i + 1, j);
    if j < |query| && query[j] == '$' {
      return query[i..j + 1], true;
    }
    return "", false;
  }

  // ---------------------------------------------------------------- quoted regions

  /** A quoted region: where it ends, the text it denotes, and whether it is closed. */
  datatype Region = Region(end: nat, value: string, closed: bool)

  function Pre(v: string, r: Region): Region {
    r.(value := v + r.value)
  }

  /** The single-quoted region whose inside starts at i; two quotes inside stand for one (section
      4.1.2.1 of the PostgreSQL 16 documentation). */
  function Quote(s: string, i: nat): (r: Region)
    requires i <= |s|
    ensures i <= r.end <= |s|
    ensures r.closed ==> i < r.end && s[r.end - 1] == '\'' && (r.end < |s| ==> s[r.end] != '\'')
    decreases |s| - i
  {
    if i == |s| then Region(|s|, "", false)
    else if s[i] != '\'' then Pre([s[i]], Quote(s, i + 1))
    else if i + 1 < |s| && s[i + 1] == '\'' then Pre("'", Quote(s, i + 2))
    else Region(i + 1, "", true)
  }

  lemma QuoteUnfold(s: string, i: nat)
    requires i < |s|
    ensures Quote(s, i) == if s[i] != '\'' then Pre([s[i]], Quote(s, i + 1))
                           else if i + 1 < |s| && s[i + 1] == '\'' then Pre("'", Quote(s, i + 2))
                           else Region(i + 1, "", true)
  {}

  // ---------------------------------------------------------------- numbers

  predicate IsDigit(c: char) {
    '0' <= c <= '9'
  }

  function Digit(c: char): (d: nat)
    requires IsDigit(c)
    ensures d == 0 <==> c == '0'
  {
    c as int - 48
  }

  function DigitsEnd(s: string, i: nat): (r: nat)
    requires i <= |s|
    ensures i <= r <= |s| && forall k :: i <= k < r ==> IsDigit(s[k])
    ensures r < |s| ==> !IsDigit(s[r])
    decreases |s| - i
  {
    if i < |s| && IsDigit(s[i]) then DigitsEnd(s, i + 1) else i
  }

  function Number(s: string, i: nat, e: nat): (n: nat)
    requires i <= e <= |s| && forall k :: i <= k < e ==> IsDigit(s[k])
    ensures i < e && s[i] != '0' ==> n >= 1
    decreases e
  {
    if i == e then 0 else 10 * Number(s, i, e - 1) + Digit(s[e - 1])
  }

  /** A number in decimal digits. */
  function Decimal(n: nat): (s: string)
    ensures s != "" && forall k :: 0 <= k < |s| ==> IsDigit(s[k])
    ensures n > 0 ==> s[0] != '0'
  {
    (if n < 10 then "" else Decimal(n / 10)) + ["0123456789"[n % 10]]
  }

  /** Reading the digits of a number gives the number, whatever stands around them. */
  lemma {:induction false} NumberReads(n: nat, s: string, i: nat)
    requires OccursAt(s, Decimal(n), i)
    ensures (forall k :: i <= k < i + |Decimal(n)| ==> IsDigit(s[k])) && Number(s, i, i + |Decimal(n)|) == n
    decreases n
  {
    var d := Decimal(n);
    var e := i + |d|;
    forall k | i <= k < e ensures IsDigit(s[k]) {
      assert d[k - i] == s[i + (k - i)];
    }
    assert s[e - 1] == d[|d| - 1] == "0123456789"[n % 10];
    DigitOf(n % 10);
    if n >= 10 {
      var front := Decimal(n / 10);
      assert d == front + ["0123456789"[n % 10]];
      forall k | 0 <= k < |front| ensures front[k] == s[i + k] {
        assert d[k] == front[k];
      }
      NumberReads(n / 10, s, i);
      assert i + |front| == e - 1;
    } else {
      assert Number(s, i, e - 1) == 0;
    }
  }

  lemma DigitOf(d: nat)
    requires d < 10
    ensures IsDigit("0123456789"[d]) && Digit("0123456789"[d]) == d
  {
    assert "0123456789"[0] == '0' && "0123456789"[1] == '1' && "0123456789"[2] == '2' && "0123456789"[3] == '3';
    assert "0123456789"[4] == '4' && "0123456789"[5] == '5' && "0123456789"[6] == '6' && "0123456789"[7] == '7';
    assert "0123456789"[8] == '8' && "0123456789"[9] == '9';
  }
}
