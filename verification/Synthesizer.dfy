/** Placeholder substitution of internal/proxy/synthesizer.go and the string literals of
    internal/protocol/literal.go: a prepared statement and its text parameters become one query,
    and the query reads back with one string constant per placeholder. */
module Synthesizer {
  import opened Wrappers
  import opened SqlText

  // ---------------------------------------------------------------- the template

  /** What starts at a position of the template: a quoted region, a dollar-quoted region, a dollar
      tag that is the end of the text, the placeholder of parameter n, or one other character. */
  datatype Piece = Quoted | Dollar | Dangling | Slot(n: nat) | Raw

  function PieceAt(q: string, m: nat, i: nat): (p: Piece)
    requires i < |q|
    ensures p.Slot? ==> 1 <= p.n <= m && q[i] == '$'
  {
    if q[i] == '\'' then Quoted
    else if TagEnd(q, i) > i then (if TagEnd(q, i) < |q| then Dollar else Dangling)
    else if q[i] == '$' && i + 1 < |q| && IsDigit(q[i + 1]) && q[i + 1] != '0' then
      var n := Number(q, i + 1, DigitsEnd(q, i + 1));
      if n <= m then Slot(n) else Raw
    else Raw
  }

  function PieceEnd(q: string, m: nat, i: nat): (r: nat)
    requires i < |q|
    ensures i < r <= |q|
  {
    match PieceAt(q, m, i)
    case Quoted => Quote(q, i + 1).end
    case Dollar => DollarEnd(q, i)
    case Slot(_) => DigitsEnd(q, i + 1)
    case Dangling => i + 1
    case Raw => i + 1
  }

  /** What is written for the piece at i; a dangling tag is written whole before its first character. */
  function Text(q: string, lits: seq<string>, i: nat): string
    requires i < |q|
  {
    match PieceAt(q, |lits|, i)
    case Slot(n) => lits[n - 1]
    case Dangling => q[i..] + [q[i]]
    case _ => q[i..PieceEnd(q, |lits|, i)]
  }

  /** The query written from position i of the template on. */
  function Out(q: string, lits: seq<string>, i: nat): string
    requires i <= |q|
    decreases |q| - i
  {
    if i == |q| then "" else Text(q, lits, i) + Out(q, lits, PieceEnd(q, |lits|, i))
  }

  // ---------------------------------------------------------------- the loops

  /** The loop over a single-quoted region. */
  method CopyQuoted(query: string, start: nat) returns (text: string, i: nat)
    requires start < |query| && query[start] == '\''
    ensures i == Quote(query, start + 1).end && text == query[start..i]
  {
    hide Quote;
    i := start + 1;
    text := [query[start]];
    while i < |query|
      invariant start < i <= |query| && text == query[start..i]
      invariant Quote(query, i).end == Quote(query, start + 1).end
    {
      QuoteUnfold(query, i);
      SliceMore(query, start, i);
      if query[i] == '\'' {
        text := text + [query[i]];
        i := i + 1;
        if i < |query| && query[i] == '\'' {
          SliceMore(query, start, i);
          text := text + [query[i]];
          i := i + 1;
          continue;
        }
        break;
      }
      text := text + [query[i]];
      i := i + 1;
    }
  }

  /** The digits from a position on, and their value. */
  method ReadNumber(query: string, start: nat) returns (n: nat, i: nat)
    requires start <= |query|
    ensures i == DigitsEnd(query, start) && n == Number(query, start, i)
  {
    n, i := 0, start;
    while i < |query| && IsDigit(query[i])
      invariant start <= i <= |query| && forall k :: start <= k < i ==> IsDigit(query[k])
      invariant n == Number(query, start, i) && DigitsEnd(query, i) == DigitsEnd(query, start)
    {
      n := 10 * n + Digit(query[i]);
      i := i + 1;
    }
  }

  /** One round of the loop of replacePlaceholders: what is written and where it goes on. */
  method WritePiece(query: string, literals: seq<string>, i: nat) returns (text: string, next: nat)
    requires i < |query|
    ensures text == Text(query, literals, i) && next == PieceEnd(query, |literals|, i)
  {
    hide Quote, DollarEnd, DigitsEnd, Number, Find, TagEnd;
    if query[i] == '\'' {
      text, next := CopyQuoted(query, i);
      return;
    }
    text := "";
    if query[i] == '$' && i + 1 < |query| {
      var tag, ok := ParseDollarTag(query, i);
      if ok {
        text := tag;
        var j := i + |tag|;
        if j < |query| {
          text, next := CopyDollar(query, i, tag);
          return;
        }
        TagNotDigit(query, i);
        assert query[i..] == tag;
      }
      if IsDigit(query[i + 1]) && query[i + 1] != '0' {
        var n, e := ReadNumber(query, i + 1);
        if n <= |literals| {
          text, next := literals[n - 1], e;
          return;
        }
      }
    }
    assert text == "" ==> text + [query[i]] == query[i..i + 1];
    text, next := text + [query[i]], i + 1;
  }

  /** A dollar-quoted region, or the rest of the text when its tag does not come again. */
  method CopyDollar(query: string, i: nat, tag: string) returns (text: string, next: nat)
    requires i <= |query| && TagEnd(query, i) > i && tag == query[i..TagEnd(query, i)]
    ensures next == DollarEnd(query, i) && text == query[i..next]
  {
    hide Find, TagEnd;
    var j := i + |tag|;
    var at := IndexFrom(query, tag, j);
    if at < 0 {
      return tag + query[j..], |query|;
    }
    return tag + query[j..at + |tag|], at + |tag|;
  }

  /** replacePlaceholders. */
  method ReplacePlaceholders(query: string, literals: seq<string>) returns (result: string)
    ensures result == Out(query, literals, 0)
  {
    hide Text, PieceEnd;
    var i := 0;
    result := "";
    while i < |query|
      invariant i <= |query| && result + Out(query, literals, i) == Out(query, literals, 0)
    {
      var text, next := WritePiece(query, literals, i);
      assert result + (text + Out(query, literals, next)) == (result + text) + Out(query, literals, next);
      result, i := result + text, next;
    }
  }

  /** A tag is not mistaken for a placeholder. */
  lemma TagNotDigit(q: string, i: nat)
    requires i <= |q| && TagEnd(q, i) > i
    ensures !IsDigit(q[i + 1])
  {}

  /** strings.Index on the text from a position on. */
  method IndexFrom(s: string, pat: string, start: nat) returns (at: int)
    ensures at == Find(s, pat, start)
  {
    at := start;
    while at + |pat| <= |s|
      invariant start <= at && Find(s, pat, at) == Find(s, pat, start)
    {
      if OccursAt(s, pat, at) {
        return;
      }
      at := at + 1;
    }
    at := -1;
  }

  // ---------------------------------------------------------------- without parameters

  /** The scan of the template meets a dollar tag that is the end of the text. */
  predicate Dangles(q: string, m: nat, i: nat)
    requires i <= |q|
    decreases |q| - i
  {
    i < |q| && (PieceAt(q, m, i).Dangling? || Dangles(q, m, PieceEnd(q, m, i)))
  }

  lemma {:induction false} OutLength(q: string, i: nat)
    requires i <= |q|
    ensures |Out(q, [], i)| >= |q| - i
    ensures Dangles(q, 0, i) ==> |Out(q, [], i)| > |q| - i
    ensures !Dangles(q, 0, i) ==> Out(q, [], i) == q[i..]
    decreases |q| - i
  {
    hide Quote, DollarEnd, DigitsEnd, Number, Find, TagEnd;
    if i < |q| {
      var e := PieceEnd(q, 0, i);
      OutLength(q, e);
      assert q[i..e] + q[e..] == q[i..];
    }
  }

  /** A template without parameters comes out as it is, except when it ends on an opening dollar
      tag, which is then written twice. */
  lemma NoParametersIdentity(q: string)
    ensures Out(q, [], 0) == q <==> !Dangles(q, 0, 0)
  {
    OutLength(q, 0);
    assert q[0..] == q;
  }

  lemma DanglingTagDoubled()
    ensures Out("a$$", [], 0) == "a$$$$"
  {
    var q := "a$$";
    assert TagEnd(q, 0) == 0 && TagEnd(q, 1) == 3 && TagEnd(q, 2) == 2;
    assert Out(q, [], 3) == "";
    assert Out(q, [], 2) == "$";
    assert Out(q, [], 1) == "$$$$";
  }

  // ---------------------------------------------------------------- string literals

  /** A parameter from i on, with quotes doubled and NUL bytes dropped. */
  function Body(s: string, i: nat): string
    requires i <= |s|
    decreases |s| - i
  {
    if i == |s| then ""
    else (if s[i] == '\'' then "''" else if s[i] == '\0' then "" else [s[i]]) + Body(s, i + 1)
  }

  function Literal(s: string): string {
    "'" + Body(s, 0) + "'"
  }

  /** The parameter from i on without NUL bytes. */
  function StripNul(s: string, i: nat): string
    requires i <= |s|
    decreases |s| - i
  {
    if i == |s| then "" else (if s[i] == '\0' then "" else [s[i]]) + StripNul(s, i + 1)
  }

  /** escapeStringLiteral. */
  method EscapeStringLiteral(s: string) returns (b: string)
    ensures b == Literal(s)
  {
    b := "'";
    for i := 0 to |s|
      invariant b + Body(s, i) == "'" + Body(s, 0)
    {
      ghost var before := b;
      if s[i] == '\'' {
        b := b + "''";
        assert b + Body(s, i + 1) == before + ("''" + Body(s, i + 1));
      } else if s[i] == '\0' {
        assert "" + Body(s, i + 1) == Body(s, i + 1);
        continue;
      } else {
        b := b + [s[i]];
        assert b + Body(s, i + 1) == before + ([s[i]] + Body(s, i + 1));
      }
    }
    b := b + "'";
  }

  /** The literals of text parameters. */
  function Literals(params: seq<string>): (lits: seq<string>)
    ensures |lits| == |params| && forall k :: 0 <= k < |params| ==> lits[k] == Literal(params[k])
  {
    seq(|params|, k requires 0 <= k < |params| => Literal(params[k]))
  }

  // ---------------------------------------------------------------- the registry

  /** The types whose text is not simply written as a string literal: booleans, integers, floats,
      numeric, oid, bytea and the validated uuid. */
  const SPECIAL_TYPES: set<nat> := {16, 17, 20, 21, 23, 26, 700, 701, 1700, 2950}

  /** Conversion of a value of a special type, or in binary format. */
  type Converter = (string, nat, bool) -> Result<string>

  /** ParamToLiteral. */
  function ParamToLiteral(value: Option<string>, oid: nat, format: int, convert: Converter): Result<string> {
    if value.None? then Ok("NULL")
    else if format == 1 || oid in SPECIAL_TYPES then convert(value.value, oid, format == 1)
    else Ok(Literal(value.value))
  }

  datatype Prepared = Prepared(query: string, oids: seq<nat>)

  /** The type of parameter i, zero when the statement does not say. */
  function OidOf(p: Prepared, i: nat): nat {
    if i < |p.oids| then p.oids[i] else 0
  }

  /** The format of parameter i: one code stands for all, a missing one for text. */
  function FormatOf(formats: seq<int>, i: nat): int {
    if |formats| == 1 then formats[0] else if i < |formats| then formats[i] else 0
  }

  function LiteralOf(p: Prepared, params: seq<Option<string>>, formats: seq<int>, convert: Converter, i: nat): Result<string>
    requires i < |params|
  {
    ParamToLiteral(params[i], OidOf(p, i), FormatOf(formats, i), convert)
  }

  /** The prepared statements of one client. */
  class Registry {
    var statements: map<string, Prepared>

    constructor ()
      ensures statements == map[]
    {
      statements := map[];
    }

    method RegisterStatement(name: string, query: string, oids: seq<nat>)
      modifies this
      ensures statements == old(statements)[name := Prepared(query, oids)]
    {
      statements := statements[name := Prepared(query, oids)];
    }

    method CloseStatement(name: string)
      modifies this
      ensures statements == old(statements) - {name}
    {
      statements := statements - {name};
    }

    /** Synthesize: an error for an unknown statement or a parameter that cannot be converted, else the
        template with the literals written in. */
    method Synthesize(name: string, params: seq<Option<string>>, formats: seq<int>, convert: Converter)
      returns (r: Result<string>)
      ensures name !in statements ==> r == Err
      ensures name in statements ==>
                var p := statements[name];
                && (r.Err? <==> exists i :: 0 <= i < |params| && LiteralOf(p, params, formats, convert, i).Err?)
                && (r.Ok? ==> exists lits: seq<string> ::
                      && |lits| == |params|
                      && (forall i :: 0 <= i < |params| ==> LiteralOf(p, params, formats, convert, i) == Ok(lits[i]))
                      && r.value == Out(p.query, lits, 0))
    {
      if name !in statements {
        return Err;
      }
      var p := statements[name];
      var literals: seq<string> := [];
      for i := 0 to |params|
        invariant |literals| == i
        invariant forall k :: 0 <= k < i ==> LiteralOf(p, params, formats, convert, k) == Ok(literals[k])
      {
        var lit := LiteralOf(p, params, formats, convert, i);
        if lit.Err? {
          return Err;
        }
        literals := literals + [lit.value];
      }
      var query := ReplacePlaceholders(p.query, literals);
      return Ok(query);
    }
  }

  /** Parameter i comes in binary format: one format code stands for all parameters, and a missing one
      for text. */
  predicate IsBinary(formats: seq<int>, i: nat) {
    formats == [1] || (|formats| > 1 && i < |formats| && formats[i] == 1)
  }

  /** The literal written for each parameter: NULL for a missing value, a conversion for a binary value
      or one of a special type, told the type the statement gives or zero, and an escaped string for
      all others. */
  lemma LiteralExact(p: Prepared, params: seq<Option<string>>, formats: seq<int>, convert: Converter, i: nat)
    requires i < |params|
    ensures params[i].None? ==> LiteralOf(p, params, formats, convert, i) == Ok("NULL")
    ensures params[i].Some? ==>
              var v, lit := params[i].value, LiteralOf(p, params, formats, convert, i);
              && (IsBinary(formats, i) && i < |p.oids| ==> lit == convert(v, p.oids[i], true))
              && (IsBinary(formats, i) && i >= |p.oids| ==> lit == convert(v, 0, true))
              && (!IsBinary(formats, i) && i < |p.oids| && p.oids[i] in {16, 17, 20, 21, 23, 26, 700, 701, 1700, 2950} ==>
                    lit == convert(v, p.oids[i], false))
              && (!IsBinary(formats, i) && (i < |p.oids| ==> p.oids[i] !in {16, 17, 20, 21, 23, 26, 700, 701, 1700, 2950}) ==>
                    lit == Ok(Literal(v)))
  {
    hide Literal;
  }

  /** With parameters that are not NULL, in text format and not of a special type, every literal is an
      escaped string. */
  lemma TextLiterals(p: Prepared, params: seq<string>, formats: seq<int>, convert: Converter, lits: seq<string>)
    requires |lits| == |params| && forall i :: 0 <= i < |params| ==> FormatOf(formats, i) != 1 && OidOf(p, i) !in SPECIAL_TYPES
    requires var values := seq(|params|, k requires 0 <= k < |params| => Some(params[k]));
             forall i :: 0 <= i < |params| ==> LiteralOf(p, values, formats, convert, i) == Ok(lits[i])
    ensures lits == Literals(params)
  {
    hide Literal, OidOf, FormatOf;
    forall i | 0 <= i < |params| ensures lits[i] == Literal(params[i]) {
      var values := seq(|params|, k requires 0 <= k < |params| => Some(params[k]));
      assert LiteralOf(p, values, formats, convert, i) == Ok(lits[i]);
    }
  }
}
