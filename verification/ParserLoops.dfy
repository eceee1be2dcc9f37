/** The index loops of internal/router/parser.go, proved against the functions the router's theorems
    are about. */
module ParserLoops {
  import opened Wrappers
  import opened SqlText
  import opened Statements
  import opened Router

  /** stripStringLiterals: one scan with two flags; what is inside quotes is not copied. */
  method StripStringLiterals(query: string) returns (result: string)
    ensures result == StripLiterals(query, 0, Plain)
  {
    hide StripLiterals, Round;
    result := "";
    var i, inSingle, inDouble := 0, false, false;
    while i < |query|
      invariant 0 <= i <= |query| && !(inSingle && inDouble)
      invariant result + StripLiterals(query, i, ModeOf(inSingle, inDouble)) == StripLiterals(query, 0, Plain)
      decreases |query| - i
    {
      ghost var r := Round(query, i, ModeOf(inSingle, inDouble));
      StripUnfold(query, i, ModeOf(inSingle, inDouble));
      assert result + (r.0 + StripLiterals(query, r.1, r.2)) == (result + r.0) + StripLiterals(query, r.1, r.2);
      var text: string;
      text, i, inSingle, inDouble := StripRound(query, i, inSingle, inDouble);
      result := result + text;
    }
    StripEnd(query, ModeOf(inSingle, inDouble));
  }

  /** The body of the loop. */
  method StripRound(query: string, i: nat, wasSingle: bool, wasDouble: bool)
    returns (text: string, next: nat, inSingle: bool, inDouble: bool)
    requires i < |query| && !(wasSingle && wasDouble)
    ensures (text, next, ModeOf(inSingle, inDouble)) == Round(query, i, ModeOf(wasSingle, wasDouble))
    ensures !(inSingle && inDouble)
  {
    hide TagEnd, DollarEnd;
    text, next, inSingle, inDouble := "", i + 1, wasSingle, wasDouble;
    var ch := query[i];
    if ch == '$' && !inSingle && !inDouble {
      var tag, ok := ParseDollarTag(query, i);
      if ok {
        text := tag + tag;
        next := SkipDollar(query, i, tag);
        return;
      }
    }
    TagIsDollar(query, i);
    if ch == '\'' && !inDouble {
      text := "'";
      if inSingle {
        if i + 1 < |query| && query[i + 1] == '\'' {
          text := "''";
          next := i + 2;
        } else {
          inSingle := false;
        }
      } else {
        inSingle := true;
      }
    } else if ch == '"' && !inSingle {
      text := "\"";
      inDouble := !inDouble;
    } else if !inSingle && !inDouble {
      text := [ch];
    }
  }

  function ModeOf(inSingle: bool, inDouble: bool): Mode {
    if inSingle then Single else if inDouble then Double else Plain
  }

  /** Past the closing tag of a dollar-quoted region, or at the end when there is none. */
  method SkipDollar(query: string, i: nat, tag: string) returns (j: nat)
    requires i <= |query| && TagEnd(query, i) > i && tag == query[i..TagEnd(query, i)]
    ensures j == DollarEnd(query, i)
  {
    hide TagEnd;
    var end := Find(query, tag, i + |tag|);
    if end >= 0 {
      return end + |tag|;
    }
    return |query|;
  }

  lemma TagIsDollar(q: string, i: nat)
    requires i <= |q|
    ensures TagEnd(q, i) > i ==> q[i] == '$'
  {}

  lemma StripEnd(q: string, m: Mode)
    ensures StripLiterals(q, |q|, m) == ""
  {}

  /** One round of the scan: the text it copies, and the position and mode it goes on with. */
  function Round(q: string, i: nat, m: Mode): (r: (string, nat, Mode))
    requires i < |q|
    ensures i < r.1 <= |q|
  {
    if m.Plain? && TagEnd(q, i) > i then (q[i..TagEnd(q, i)] + q[i..TagEnd(q, i)], DollarEnd(q, i), Plain)
    else if q[i] == '\'' && !m.Double? then
      if m.Plain? then ("'", i + 1, Single)
      else if Pair(q, i, '\'', '\'') then ("''", i + 2, Single)
      else ("'", i + 1, Plain)
    else if q[i] == '"' && !m.Single? then ("\"", i + 1, if m.Double? then Plain else Double)
    else if !m.Plain? then ("", i + 1, m)
    else ([q[i]], i + 1, Plain)
  }

  lemma StripUnfold(q: string, i: nat, m: Mode)
    requires i < |q|
    ensures var r := Round(q, i, m); StripLiterals(q, i, m) == r.0 + StripLiterals(q, r.1, r.2)
  {
    hide TagEnd, DollarEnd;
    if !m.Plain? {
      assert "" + StripLiterals(q, i + 1, m) == StripLiterals(q, i + 1, m);
    }
  }

  /** stripComments. */
  method StripCommentsLoop(query: string) returns (result: string)
    ensures result == StripComments(query, 0)
  {
    hide BlockEnd, LineStop, StripComments;
    result := "";
    var i := 0;
    while i < |query|
      invariant 0 <= i <= |query| && result + StripComments(query, i) == StripComments(query, 0)
      decreases |query| - i
    {
      CommentUnfold(query, i, result);
      if Pair(query, i, '/', '*') {
        i := BlockComment(query, i);
      } else if Pair(query, i, '-', '-') {
        i := SkipLine(query, i + 2);
      } else {
        result := result + [query[i]];
        i := i + 1;
      }
    }
    CommentEnd(query);
  }

  lemma CommentEnd(q: string)
    ensures StripComments(q, |q|) == ""
  {}

  lemma CommentUnfold(q: string, i: nat, done: string)
    requires i < |q|
    ensures done + StripComments(q, i) ==
            if Pair(q, i, '/', '*') then done + StripComments(q, BlockEnd(q, i + 2, 1))
            else if Pair(q, i, '-', '-') then done + StripComments(q, LineStop(q, i + 2))
            else (done + [q[i]]) + StripComments(q, i + 1)
  {
    hide BlockEnd, LineStop;
  }

  method SkipLine(query: string, start: nat) returns (i: nat)
    requires start <= |query|
    ensures i == LineStop(query, start)
  {
    i := start;
    while i < |query| && query[i] != '\n'
      invariant start <= i <= |query| && LineStop(query, i) == LineStop(query, start)
    {
      i := i + 1;
    }
  }

  /** The scan of extractHint over the text without string literals. */
  method ExtractHintLoop(query: string) returns (hint: Option<QueryType>)
    ensures hint == ExtractHint(query)
  {
    hide BlockEnd, HintMatch, Openers, Contains, StripLiterals;
    var sanitized := StripStringLiterals(query);
    var i := 0;
    while i < |sanitized|
      invariant 0 <= i <= |sanitized| && HintFrom(sanitized, i) == ExtractHint(query)
      decreases |sanitized| - i
    {
      if Pair(sanitized, i, '/', '*') {
        var j := BlockComment(sanitized, i);
        var comment := sanitized[i..j];
        if !Contains(comment, "/* ") || Openers(comment, 0) == 1 {
          hint := HintMatch(comment, 0);
          if hint.Some? {
            return;
          }
        }
        i := j;
      } else {
        i := i + 1;
      }
    }
    return None;
  }

  /** containsWriteKeyword: each keyword is looked for from one occurrence to the next. */
  method ContainsWriteKeywordLoop(query: string) returns (r: bool)
    ensures r == ContainsWriteKeyword(query)
  {
    hide StripLiterals, Upper, Find;
    var stripped := StripStringLiterals(query);
    var upper := Upper(stripped);
    for k := 0 to |WriteKeywords|
      invariant forall w, i :: 0 <= w < k && 0 <= i < |upper| ==> !StandsAlone(upper, WriteKeywords[w], i)
    {
      r := FindAlone(upper, WriteKeywords[k]);
      if r {
        return;
      }
    }
    r := false;
  }

  method FindAlone(upper: string, kw: string) returns (r: bool)
    ensures r <==> exists i :: 0 <= i < |upper| && StandsAlone(upper, kw, i)
  {
    hide Find;
    var idx := Find(upper, kw, 0);
    while 0 <= idx < |upper|
      invariant idx == -1 || (0 <= idx && OccursAt(upper, kw, idx))
      invariant forall i :: 0 <= i < |upper| && (idx < 0 || i < idx) ==> !StandsAlone(upper, kw, i)
      decreases if idx < 0 then 0 else |upper| - idx + 1
    {
      if StandsAlone(upper, kw, idx) {
        return true;
      }
      idx := Find(upper, kw, idx + 1);
    }
    return false;
  }
}
