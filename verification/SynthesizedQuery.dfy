/** Exactly when the query written for a template reads as the template with its parameters filled in
    (internal/proxy/synthesizer.go): for every template and all parameters. */
module SynthesizedQuery {
  import opened SqlText
  import opened SqlLexer
  import opened LexerCopies
  import opened Synthesizer
  import opened SynthesizedTokens

  // ---------------------------------------------------------------- places of replacement

  /** Where the parameters with a value are in the template, as the lexer sees it. */
  function Params(q: string, m: nat, i: nat): seq<nat>
    requires i <= |q|
    decreases |q| - i
  {
    if i == |q| then [] else (if IsParam(q, m, i) then [i] else []) + Params(q, m, Read(q, i).end)
  }

  /** Where the scan of the template replaces placeholders. */
  function Slots(q: string, m: nat, i: nat): seq<nat>
    requires i <= |q|
    decreases |q| - i
  {
    if i == |q| then [] else (if PieceAt(q, m, i).Slot? then [i] else []) + Slots(q, m, PieceEnd(q, m, i))
  }

  /** A dollar sign with the digits of a number from 1 to m stands at p. */
  predicate IsPlace(q: string, m: nat, p: nat) {
    p + 1 < |q| && q[p] == '$' && IsDigit(q[p + 1]) && 1 <= NumberAt(q, p) <= m
  }

  function NumberAt(q: string, p: nat): nat
    requires p + 1 < |q|
  {
    Number(q, p + 1, DigitsEnd(q, p + 1))
  }

  /** Places from i on, one behind the other. */
  predicate Places(q: string, m: nat, i: nat, ps: seq<nat>)
    decreases |ps|
  {
    ps != [] ==> i <= ps[0] && IsPlace(q, m, ps[0]) && Places(q, m, DigitsEnd(q, ps[0] + 1), ps[1..])
  }

  /** The template from i on with literals in these places. */
  function Replaced(q: string, lits: seq<string>, i: nat, ps: seq<nat>): string
    requires i <= |q| && Places(q, |lits|, i, ps)
    decreases |ps|
  {
    if ps == [] then q[i..]
    else q[i..ps[0]] + (lits[NumberAt(q, ps[0]) - 1] + Replaced(q, lits, DigitsEnd(q, ps[0] + 1), ps[1..]))
  }

  lemma PlacesEarlier(q: string, lits: seq<string>, i: nat, e: nat, ps: seq<nat>)
    requires i <= e <= |q| && Places(q, |lits|, e, ps)
    ensures Places(q, |lits|, i, ps) && Replaced(q, lits, i, ps) == q[i..e] + Replaced(q, lits, e, ps)
  {
    hide IsPlace, DigitsEnd, NumberAt;
    if ps == [] {
      assert q[i..] == q[i..e] + q[e..];
    } else {
      PlaceInside(q, |lits|, ps[0]);
      SliceJoin(q, i, e, ps[0]);
      Assoc(q[i..e], q[e..ps[0]], lits[NumberAt(q, ps[0]) - 1] + Replaced(q, lits, DigitsEnd(q, ps[0] + 1), ps[1..]));
    }
  }

  lemma SliceJoin(q: string, i: nat, e: nat, p: nat)
    requires i <= e <= p <= |q|
    ensures q[i..p] == q[i..e] + q[e..p]
  {}

  lemma Assoc(a: string, b: string, c: string)
    ensures (a + b) + c == a + (b + c)
  {}

  lemma PlaceInside(q: string, m: nat, p: nat)
    requires IsPlace(q, m, p)
    ensures p + 1 < |q| && q[p] == '$' && 1 <= NumberAt(q, p) <= m && p + 1 <= DigitsEnd(q, p + 1) <= |q|
  {}

  /** A place in front of others. */
  lemma PlacesCons(q: string, lits: seq<string>, p: nat, ps: seq<nat>)
    requires IsPlace(q, |lits|, p) && Places(q, |lits|, DigitsEnd(q, p + 1), ps)
    ensures Places(q, |lits|, p, [p] + ps)
    ensures Replaced(q, lits, p, [p] + ps) == lits[NumberAt(q, p) - 1] + Replaced(q, lits, DigitsEnd(q, p + 1), ps)
  {
    hide IsPlace, DigitsEnd, NumberAt;
    PlaceInside(q, |lits|, p);
    assert ([p] + ps)[1..] == ps;
    assert q[p..p] == "";
  }

  // ---------------------------------------------------------------- both texts as replacements

  lemma ParamIsPlace(q: string, m: nat, i: nat)
    requires i < |q| && IsParam(q, m, i)
    ensures IsPlace(q, m, i) && Read(q, i).end == DigitsEnd(q, i + 1) && Read(q, i).kind.n == NumberAt(q, i)
  {
    hide Read, DigitsEnd, Number, TagEnd, Closing, DollarEnd;
    ParamIsDollar(q, m, i);
  }

  lemma {:induction false} RepIsReplaced(q: string, lits: seq<string>, i: nat)
    requires i <= |q|
    ensures Places(q, |lits|, i, Params(q, |lits|, i))
    ensures Rep(q, lits, i) == Replaced(q, lits, i, Params(q, |lits|, i))
    decreases |q| - i
  {
    hide Read, IsPlace, DigitsEnd, NumberAt, Places, Replaced;
    if i == |q| {
      PlacesNone(q, lits, i);
    } else {
      var r := Read(q, i);
      var ps := Params(q, |lits|, r.end);
      RepIsReplaced(q, lits, r.end);
      if IsParam(q, |lits|, i) {
        ParamIsPlace(q, |lits|, i);
        PlacesCons(q, lits, i, ps);
      } else {
        PlacesEarlier(q, lits, i, r.end, ps);
        assert [] + ps == ps;
      }
    }
  }

  lemma PlacesNone(q: string, lits: seq<string>, i: nat)
    requires i <= |q|
    ensures Places(q, |lits|, i, []) && Replaced(q, lits, i, []) == q[i..]
  {}

  lemma SlotIsPlace(q: string, m: nat, i: nat)
    requires i < |q| && PieceAt(q, m, i).Slot?
    ensures IsPlace(q, m, i) && PieceEnd(q, m, i) == DigitsEnd(q, i + 1) && PieceAt(q, m, i).n == NumberAt(q, i)
  {
    hide DigitsEnd, Number, TagEnd, Quote, DollarEnd;
  }

  /** What the scan writes twice: a dollar tag that is the end of the template. */
  function Tail(q: string, m: nat, i: nat): string
    requires i <= |q|
    decreases |q| - i
  {
    if i == |q| then "" else if PieceAt(q, m, i).Dangling? then q[i..] else Tail(q, m, PieceEnd(q, m, i))
  }

  lemma {:induction false} TailDangles(q: string, m: nat, i: nat)
    requires i <= |q|
    ensures Dangles(q, m, i) <==> Tail(q, m, i) != ""
    decreases |q| - i
  {
    hide PieceAt, PieceEnd;
    if i < |q| {
      TailDangles(q, m, PieceEnd(q, m, i));
    }
  }

  lemma PlainPiece(q: string, m: nat, i: nat)
    requires i < |q| && ((q[i] != '\'' && q[i] != '$') || (q[i] == '$' && i + 1 == |q|))
    ensures PieceAt(q, m, i) == Raw && PieceEnd(q, m, i) == i + 1
  {
    hide DigitsEnd, Number, Quote, DollarEnd;
  }

  /** No quote and no dollar sign from j on, but for a dollar sign that is the end. */
  predicate Bare(q: string, j: nat) {
    && (forall k :: j <= k < |q| ==> (q[k] != '\'' && q[k] != '$') || k + 1 == |q|)
    && (j < |q| ==> q[|q| - 1] == '$')
  }

  lemma BarePiece(q: string, lits: seq<string>, j: nat)
    requires j < |q| && Bare(q, j)
    ensures PieceAt(q, |lits|, j) == Raw && PieceEnd(q, |lits|, j) == j + 1 && Text(q, lits, j) == q[j..j + 1] && Bare(q, j + 1)
  {
    hide PieceAt, PieceEnd;
    PlainPiece(q, |lits|, j);
  }

  /** Behind the first character of a dangling tag everything is copied. */
  lemma {:induction false} RestCopied(q: string, lits: seq<string>, j: nat)
    requires j <= |q| && Bare(q, j)
    ensures Slots(q, |lits|, j) == [] && Out(q, lits, j) == q[j..]
    decreases |q| - j
  {
    hide PieceAt, PieceEnd, Slots, Out, Text, Bare;
    if j < |q| {
      BarePiece(q, lits, j);
      RestCopied(q, lits, j + 1);
      SlotsUnfold(q, lits, j);
      SliceJoin(q, j, j + 1, |q|);
      assert q[j..] == q[j..|q|] && q[j + 1..] == q[j + 1..|q|];
    } else {
      OutDone(q, lits);
    }
  }

  lemma DanglingRest(q: string, lits: seq<string>, i: nat)
    requires i < |q| && PieceAt(q, |lits|, i).Dangling?
    ensures Slots(q, |lits|, i) == [] && Out(q, lits, i) == q[i..] + q[i..]
  {
    hide PieceAt, PieceEnd, Text, Slots, Out, Bare;
    DanglingTag(q, |lits|, i);
    DanglingText(q, lits, i);
    RestCopied(q, lits, i + 1);
    SlotsUnfold(q, lits, i);
    Assoc(q[i..], [q[i]], q[i + 1..]);
    assert q[i..] == [q[i]] + q[i + 1..];
  }

  lemma DanglingText(q: string, lits: seq<string>, i: nat)
    requires i < |q| && PieceAt(q, |lits|, i).Dangling?
    ensures Text(q, lits, i) == q[i..] + [q[i]] && PieceEnd(q, |lits|, i) == i + 1
  {
    hide PieceAt;
  }

  lemma DanglingTag(q: string, m: nat, i: nat)
    requires i < |q| && PieceAt(q, m, i).Dangling?
    ensures Bare(q, i + 1)
  {
    hide DigitsEnd, Number, Quote, DollarEnd, TagEnd;
    assert TagEnd(q, i) == |q|;
  }

  lemma SlotsUnfold(q: string, lits: seq<string>, i: nat)
    requires i < |q|
    ensures Slots(q, |lits|, i)
         == (if PieceAt(q, |lits|, i).Slot? then [i] else []) + Slots(q, |lits|, PieceEnd(q, |lits|, i))
    ensures Out(q, lits, i) == Text(q, lits, i) + Out(q, lits, PieceEnd(q, |lits|, i))
  {
    hide PieceAt, PieceEnd, Text;
  }

  lemma {:induction false} OutIsReplaced(q: string, lits: seq<string>, i: nat)
    requires i <= |q|
    ensures Places(q, |lits|, i, Slots(q, |lits|, i))
    ensures Out(q, lits, i) == Replaced(q, lits, i, Slots(q, |lits|, i)) + Tail(q, |lits|, i)
    decreases |q| - i
  {
    hide PieceAt, PieceEnd, IsPlace, DigitsEnd, NumberAt, Places, Replaced, Slots, Out;
    if i == |q| {
      PlacesNone(q, lits, i);
      OutDone(q, lits);
    } else if PieceAt(q, |lits|, i).Dangling? {
      DanglingRest(q, lits, i);
      PlacesNone(q, lits, i);
    } else {
      var e := PieceEnd(q, |lits|, i);
      var ps := Slots(q, |lits|, e);
      OutIsReplaced(q, lits, e);
      SlotsUnfold(q, lits, i);
      if PieceAt(q, |lits|, i).Slot? {
        SlotIsPlace(q, |lits|, i);
        PlaceInside(q, |lits|, i);
        PlacesCons(q, lits, i, ps);
        Assoc(lits[NumberAt(q, i) - 1], Replaced(q, lits, e, ps), Tail(q, |lits|, e));
      } else {
        PlacesEarlier(q, lits, i, e, ps);
        assert [] + ps == ps;
        Assoc(q[i..e], Replaced(q, lits, e, ps), Tail(q, |lits|, e));
      }
    }
  }

  lemma OutDone(q: string, lits: seq<string>)
    ensures Out(q, lits, |q|) == "" && Slots(q, |lits|, |q|) == [] && Tail(q, |lits|, |q|) == ""
    ensures q[|q|..] == ""
  {}

  // ---------------------------------------------------------------- the places can be told from the text

  /** The character written for position p of the template, in front of the first place or at it. */
  lemma ReplacedAt(q: string, lits: seq<string>, i: nat, ps: seq<nat>, p: nat)
    requires i <= p < |q| && Places(q, |lits|, i, ps) && Quoting(lits) && (ps != [] ==> p <= ps[0])
    ensures p - i < |Replaced(q, lits, i, ps)|
    ensures Replaced(q, lits, i, ps)[p - i] == if ps != [] && p == ps[0] then '\'' else q[p]
  {
    hide DigitsEnd, NumberAt, IsPlace;
    if ps != [] {
      PlaceInside(q, |lits|, ps[0]);
      var a := q[i..ps[0]];
      var lit, rest := lits[NumberAt(q, ps[0]) - 1], Replaced(q, lits, DigitsEnd(q, ps[0] + 1), ps[1..]);
      assert Replaced(q, lits, i, ps) == a + (lit + rest);
      assert lit[0] == '\'';
      assert p < ps[0] ==> a[p - i] == q[p];
    }
  }

  /** Texts with the literals in different places differ, also when one has something behind it. */
  lemma {:induction false} PlacesTold(q: string, lits: seq<string>, i: nat, ps: seq<nat>, qs: seq<nat>, tail: string)
    requires i <= |q| && Places(q, |lits|, i, ps) && Places(q, |lits|, i, qs) && Quoting(lits)
    requires Replaced(q, lits, i, ps) + tail == Replaced(q, lits, i, qs)
    ensures ps == qs && tail == ""
    decreases |ps|
  {
    hide DigitsEnd, NumberAt, IsPlace, Replaced;
    if ps == [] && qs == [] {
      PlacesNone(q, lits, i);
    } else if ps != [] && qs != [] && ps[0] == qs[0] {
      PlaceInside(q, |lits|, ps[0]);
      var e := DigitsEnd(q, ps[0] + 1);
      SamePlace(q, lits, i, ps, qs, tail);
      PlacesTold(q, lits, e, ps[1..], qs[1..], tail);
      assert ps == [ps[0]] + ps[1..] && qs == [qs[0]] + qs[1..];
    } else {
      FirstDiffers(q, lits, i, ps, qs, tail);
    }
  }

  /** Behind a common first place the rest is equal too. */
  lemma SamePlace(q: string, lits: seq<string>, i: nat, ps: seq<nat>, qs: seq<nat>, tail: string)
    requires i <= |q| && Places(q, |lits|, i, ps) && Places(q, |lits|, i, qs) && ps != [] && qs != [] && ps[0] == qs[0]
    requires Replaced(q, lits, i, ps) + tail == Replaced(q, lits, i, qs)
    ensures DigitsEnd(q, ps[0] + 1) <= |q|
    ensures Replaced(q, lits, DigitsEnd(q, ps[0] + 1), ps[1..]) + tail == Replaced(q, lits, DigitsEnd(q, ps[0] + 1), qs[1..])
  {
    hide DigitsEnd, NumberAt, IsPlace, Replaced;
    PlaceInside(q, |lits|, ps[0]);
    ReplacedUnfold(q, lits, i, ps);
    ReplacedUnfold(q, lits, i, qs);
    var e := DigitsEnd(q, ps[0] + 1);
    var a, lit := q[i..ps[0]], lits[NumberAt(q, ps[0]) - 1];
    var x, y := Replaced(q, lits, e, ps[1..]), Replaced(q, lits, e, qs[1..]);
    Cancel(a, lit, x, tail, y);
  }

  lemma ReplacedUnfold(q: string, lits: seq<string>, i: nat, ps: seq<nat>)
    requires i <= |q| && Places(q, |lits|, i, ps) && ps != []
    ensures Replaced(q, lits, i, ps)
         == q[i..ps[0]] + (lits[NumberAt(q, ps[0]) - 1] + Replaced(q, lits, DigitsEnd(q, ps[0] + 1), ps[1..]))
  {
    hide DigitsEnd, NumberAt, IsPlace;
  }

  lemma Cancel(a: string, lit: string, x: string, tail: string, y: string)
    requires (a + (lit + x)) + tail == a + (lit + y)
    ensures x + tail == y
  {
    var l, r := (a + (lit + x)) + tail, a + (lit + y);
    var n := |a| + |lit|;
    assert l[n..] == x + tail && r[n..] == y;
  }

  /** At the first place that only one of them has, one text has a quote and the other a dollar sign. */
  lemma FirstDiffers(q: string, lits: seq<string>, i: nat, ps: seq<nat>, qs: seq<nat>, tail: string)
    requires i <= |q| && Places(q, |lits|, i, ps) && Places(q, |lits|, i, qs) && Quoting(lits)
    requires !(ps == [] && qs == []) && !(ps != [] && qs != [] && ps[0] == qs[0])
    ensures Replaced(q, lits, i, ps) + tail != Replaced(q, lits, i, qs)
  {
    hide DigitsEnd, NumberAt, IsPlace, Replaced;
    var p := if qs == [] || (ps != [] && ps[0] < qs[0]) then ps[0] else qs[0];
    PlaceInside(q, |lits|, p);
    ReplacedAt(q, lits, i, ps, p);
    ReplacedAt(q, lits, i, qs, p);
    var x, y := Replaced(q, lits, i, ps), Replaced(q, lits, i, qs);
    assert (x + tail)[p - i] == x[p - i];
  }

  // ---------------------------------------------------------------- the theorem

  /** The scan replaces exactly what the lexer sees as parameters with a value, the template does not
      end on an opening dollar tag, and no token meets a quote that a literal brings. */
  predicate Faithful(q: string, m: nat) {
    Slots(q, m, 0) == Params(q, m, 0) && !Dangles(q, m, 0) && Apart(q, m, 0)
  }

  /** For every template and all text parameters: the written query reads as the template's tokens,
      with each parameter that has a value read as one string constant whose text is that value
      without NUL bytes and every other token unchanged, if and only if the template is one that the
      scan and the lexer see alike. */
  lemma OneStringPerPlaceholder(q: string, params: seq<string>)
    ensures Lex(Out(q, Literals(params), 0), 0) == Expected(q, params, 0) <==> Faithful(q, |params|)
  {
    hide Lex, Out, Expected, Rep, Slots, Params, Dangles, Apart, Literals;
    var lits := Literals(params);
    var t := Out(q, lits, 0);
    LiteralsQuote(params);
    TextExact(q, lits);
    if t == Rep(q, lits, 0) {
      assert t[0..] == t;
      RepReads(q, params, 0, t, 0);
    } else {
      TextDiffers(q, params, t);
    }
  }

  /** The text is the expected one exactly when the places are and nothing is written twice. */
  lemma TextExact(q: string, lits: seq<string>)
    requires Quoting(lits)
    ensures Out(q, lits, 0) == Rep(q, lits, 0) <==>
              Slots(q, |lits|, 0) == Params(q, |lits|, 0) && !Dangles(q, |lits|, 0)
  {
    hide Out, Rep, Slots, Params, Dangles, Replaced, Places, Tail;
    OutIsReplaced(q, lits, 0);
    RepIsReplaced(q, lits, 0);
    TailDangles(q, |lits|, 0);
    var x, y := Replaced(q, lits, 0, Slots(q, |lits|, 0)), Replaced(q, lits, 0, Params(q, |lits|, 0));
    assert x + "" == x;
    if x + Tail(q, |lits|, 0) == y {
      PlacesTold(q, lits, 0, Slots(q, |lits|, 0), Params(q, |lits|, 0), Tail(q, |lits|, 0));
    }
  }

  /** Tokens keep their text, so another text has other tokens. */
  lemma TextDiffers(q: string, params: seq<string>, t: string)
    requires t != Rep(q, Literals(params), 0)
    ensures Lex(t, 0) != Expected(q, params, 0)
  {
    hide Lex, Expected, Rep, Literals;
    LexIsLossless(t, 0);
    ExpectedText(q, params, 0);
    assert t[0..] == t;
  }

  // ---------------------------------------------------------------- ordinary templates

  /** No quote and no dollar sign from i up to e. */
  predicate Quiet(q: string, i: nat, e: nat)
    requires i <= e <= |q|
  {
    forall k :: i <= k < e ==> q[k] != '\'' && q[k] != '$'
  }

  /** A token the scan passes over as the lexer does: white space, symbols, numbers and dollar strings;
      words, identifiers and comments without quotes and dollar signs; plain constants in one part;
      and parameters without a leading zero. */
  predicate Ordinary(q: string, i: nat)
    requires i < |q|
  {
    var r := Read(q, i);
    match r.kind
    case Space => true
    case Symbol => true
    case Numeral => true
    case DollarStr => true
    case Word => Quiet(q, i, r.end)
    case Ident => Quiet(q, i, r.end)
    case Comment => Quiet(q, i, r.end)
    case Str => r.end == PartEnd(q, i + 1, Str)
    case Param(_) => i + 1 < |q| && q[i + 1] != '0'
    case _ => false
  }

  predicate AllOrdinary(q: string, i: nat)
    requires i <= |q|
    decreases |q| - i
  {
    i < |q| ==> Ordinary(q, i) && AllOrdinary(q, Read(q, i).end)
  }

  /** The scan is at a token's end when it was at its start, having replaced it if it is a parameter
      with a value, and has met no dangling tag. */
  predicate InStep(q: string, m: nat, i: nat, e: nat)
    requires i < e <= |q|
  {
    && Slots(q, m, i) == (if IsParam(q, m, i) then [i] else []) + Slots(q, m, e)
    && (Dangles(q, m, i) <==> Dangles(q, m, e))
  }

  lemma {:induction false} QuietSteps(q: string, m: nat, i: nat, e: nat)
    requires i <= e <= |q| && Quiet(q, i, e)
    ensures Slots(q, m, i) == Slots(q, m, e) && (Dangles(q, m, i) <==> Dangles(q, m, e))
    decreases e - i
  {
    hide PieceAt, PieceEnd;
    if i < e {
      PlainPiece(q, m, i);
      QuietSteps(q, m, i + 1, e);
      assert [] + Slots(q, m, i + 1) == Slots(q, m, i + 1);
    }
  }

  lemma OnePieceStep(q: string, m: nat, i: nat, e: nat)
    requires i < e <= |q| && PieceEnd(q, m, i) == e && !PieceAt(q, m, i).Dangling?
    requires PieceAt(q, m, i).Slot? <==> IsParam(q, m, i)
    ensures InStep(q, m, i, e)
  {
    hide PieceAt, PieceEnd, Read;
  }

  lemma QuietStep(q: string, m: nat, i: nat, e: nat)
    requires i < e <= |q| && Quiet(q, i, e) && !IsParam(q, m, i)
    ensures InStep(q, m, i, e)
  {
    hide Read;
    QuietSteps(q, m, i, e);
    assert [] + Slots(q, m, e) == Slots(q, m, e);
  }

  lemma StringStep(q: string, m: nat, i: nat)
    requires i < |q| && Read(q, i).kind.Str? && q[i] == '\'' && Read(q, i).end == PartEnd(q, i + 1, Str)
    ensures InStep(q, m, i, Read(q, i).end)
  {
    hide Read, PartEnd, Quote, DigitsEnd, Number, TagEnd;
    PartIsQuote(q, i + 1);
    OnePieceStep(q, m, i, Read(q, i).end);
  }

  /** Only a plain constant starts with a quote. */
  lemma KindStarts(q: string, i: nat)
    requires i < |q|
    ensures var k := Read(q, i).kind;
            && (k.Str? ==> q[i] == '\'')
            && (k.Param? || k.DollarStr? ==> q[i] == '$' && Read(q, i) == ReadDollar(q, i))
            && (k.Space? || k.Symbol? ==> Read(q, i).end == i + 1 && q[i] != '\'')
            && (k.Numeral? ==> Read(q, i) == Lexeme(Numeral, TagRun(q, i)))
            && (k.Symbol? && q[i] == '$' ==> Read(q, i) == ReadDollar(q, i))
            && (k.Space? ==> q[i] != '$')
  {
    hide ConstEnd, IdentClose, BlockClose, CommentStop, WordEnd, TagEnd, DollarEnd, Closing, DigitsEnd, Number, TagRun;
  }

  lemma DollarStringStep(q: string, m: nat, i: nat)
    requires i < |q| && q[i] == '$' && Read(q, i) == ReadDollar(q, i) && Read(q, i).kind.DollarStr?
    ensures InStep(q, m, i, Read(q, i).end)
  {
    hide Read, Quote, DigitsEnd, Number, TagEnd, Find;
    OnePieceStep(q, m, i, Read(q, i).end);
  }

  lemma ParamStep(q: string, m: nat, i: nat)
    requires i + 1 < |q| && q[i] == '$' && Read(q, i) == ReadDollar(q, i) && Read(q, i).kind.Param? && q[i + 1] != '0'
    ensures InStep(q, m, i, Read(q, i).end)
  {
    hide Read, Quote, DigitsEnd, Number, Find, DollarEnd, Closing;
    var e := Read(q, i).end;
    DigitNoTag(q, i);
    if IsParam(q, m, i) {
      OnePieceStep(q, m, i, e);
    } else {
      OnePieceStep(q, m, i, i + 1);
      QuietSteps(q, m, i + 1, e);
    }
  }

  lemma DigitNoTag(q: string, i: nat)
    requires i + 1 < |q| && q[i] == '$' && (IsDigit(q[i + 1]) || ReadDollar(q, i).kind.Param?)
    ensures IsDigit(q[i + 1]) && TagEnd(q, i) == i && i + 1 < DigitsEnd(q, i + 1)
  {
    hide Find;
  }

  lemma AloneStep(q: string, m: nat, i: nat)
    requires i < |q| && q[i] == '$' && Read(q, i) == ReadDollar(q, i) && Read(q, i).kind.Symbol?
    ensures InStep(q, m, i, i + 1)
  {
    hide Read, Quote, DigitsEnd, Number, Find, DollarEnd, Closing, TagEnd;
    OnePieceStep(q, m, i, i + 1);
  }

  lemma OrdinaryStep(q: string, m: nat, i: nat)
    requires i < |q| && Ordinary(q, i)
    ensures InStep(q, m, i, Read(q, i).end)
  {
    hide Read, InStep, PartEnd;
    var r := Read(q, i);
    KindStarts(q, i);
    match r.kind {
      case Space => QuietStep(q, m, i, r.end);
      case Symbol =>
        if q[i] == '$' {
          AloneStep(q, m, i);
        } else {
          QuietStep(q, m, i, r.end);
        }
      case Numeral => QuietStep(q, m, i, r.end);
      case DollarStr => DollarStringStep(q, m, i);
      case Word => QuietStep(q, m, i, r.end);
      case Ident => QuietStep(q, m, i, r.end);
      case Comment => QuietStep(q, m, i, r.end);
      case Str => StringStep(q, m, i);
      case Param(_) => ParamStep(q, m, i);
    }
  }

  lemma {:induction false} OrdinarySteps(q: string, m: nat, i: nat)
    requires i <= |q| && AllOrdinary(q, i)
    ensures Slots(q, m, i) == Params(q, m, i) && !Dangles(q, m, i)
    decreases |q| - i
  {
    hide Read, Ordinary, PieceAt, PieceEnd;
    if i < |q| {
      OrdinarySteps(q, m, Read(q, i).end);
      OrdinaryStep(q, m, i);
    }
  }

  /** On a template of ordinary tokens the scan misses and invents nothing: all that can go wrong is
      that a parameter meets a quote. */
  lemma OrdinaryTemplates(q: string, params: seq<string>)
    requires AllOrdinary(q, 0)
    ensures Lex(Out(q, Literals(params), 0), 0) == Expected(q, params, 0) <==> Apart(q, |params|, 0)
  {
    hide Lex, Out, Expected, Literals, Apart, Slots, Params, Dangles;
    OrdinarySteps(q, |params|, 0);
    OneStringPerPlaceholder(q, params);
  }

  // ---------------------------------------------------------------- templates that fail, for all parameters

  /** The written query does not read as the template asks, whatever the parameters are. */
  ghost predicate Fails(q: string, m: nat) {
    forall params: seq<string> :: |params| == m ==> Lex(Out(q, Literals(params), 0), 0) != Expected(q, params, 0)
  }

  lemma NotFaithfulFails(q: string, m: nat)
    requires !Faithful(q, m)
    ensures Fails(q, m)
  {
    hide Lex, Out, Expected, Faithful;
    forall params: seq<string> | |params| == m ensures Lex(Out(q, Literals(params), 0), 0) != Expected(q, params, 0) {
      OneStringPerPlaceholder(q, params);
    }
  }

  /** The scan replaces a dollar sign with digits in the middle of a word, which is no parameter. */
  lemma WordIsBroken(w: string, m: nat)
    requires w != "" && IsTagStart(w[0]) && (forall k :: 0 <= k < |w| ==> IsTagChar(w[k])) && m >= 1
    ensures Fails(w + "$1", m)
  {
    hide Fails;
    var q, n := w + "$1", |w|;
    assert q[n] == '$' && q[n + 1] == '1' && forall k :: 0 <= k < n ==> q[k] == w[k];
    WholeWord(q, m);
    OneSlot(q, m, n);
    CharsRaw(q, m, 0, n);
    NotFaithfulFails(q, m);
  }

  lemma WholeWord(q: string, m: nat)
    requires |q| >= 3 && IsTagStart(q[0]) && forall k :: 0 <= k < |q| ==> IsWordChar(q[k])
    ensures Params(q, m, 0) == []
  {
    hide WordEnd, ConstEnd, IdentClose;
    WordEndIs(q, 0, |q|);
    WordToken(q, 0);
    assert Read(q, 0) == Lexeme(Word, |q|);
    assert Params(q, m, |q|) == [];
  }

  lemma OneDigit(q: string, n: nat)
    requires n + 2 == |q| && IsDigit(q[n + 1])
    ensures DigitsEnd(q, n + 1) == n + 2 && Number(q, n + 1, n + 2) == Digit(q[n + 1])
  {
    assert DigitsEnd(q, n + 2) == n + 2;
    assert Number(q, n + 1, n + 1) == 0;
  }

  lemma OneSlot(q: string, m: nat, n: nat)
    requires n + 2 == |q| && q[n] == '$' && q[n + 1] == '1' && m >= 1
    ensures PieceAt(q, m, n) == Slot(1) && Slots(q, m, n) == [n]
  {
    hide Quote, DollarEnd;
    OneDigit(q, n);
    assert TagEnd(q, n) == n;
    assert PieceEnd(q, m, n) == n + 2;
    assert Slots(q, m, n + 2) == [];
  }

  lemma {:induction false} CharsRaw(q: string, m: nat, i: nat, n: nat)
    requires i <= n <= |q| && forall k :: i <= k < n ==> q[k] != '\'' && q[k] != '$'
    ensures Slots(q, m, i) == Slots(q, m, n)
    decreases n - i
  {
    hide PieceAt, PieceEnd;
    if i < n {
      PlainPiece(q, m, i);
      CharsRaw(q, m, i + 1, n);
      assert [] + Slots(q, m, i + 1) == Slots(q, m, i + 1);
    }
  }

  /** The scan replaces what is in a comment. */
  lemma CommentIsBroken(m: nat)
    requires m >= 1
    ensures Fails("--$1", m)
  {
    hide Fails;
    var q := "--$1";
    assert q[2] == '$' && q[3] == '1';
    OneSlot(q, m, 2);
    CharsRaw(q, m, 0, 2);
    StopIs(q, 2, 4);
    CommentToken(q, 0);
    assert Params(q, m, 4) == [];
    NotFaithfulFails(q, m);
  }

  /** A number with a leading zero is a parameter that the scan passes over. */
  lemma LeadingZeroIsMissed(m: nat)
    requires m >= 1
    ensures Fails("$01", m)
  {
    hide Fails;
    var q := "$01";
    assert DigitsEnd(q, 3) == 3 && DigitsEnd(q, 2) == 3 && DigitsEnd(q, 1) == 3;
    assert Number(q, 1, 1) == 0 && Number(q, 1, 2) == 0 && Number(q, 1, 3) == 1;
    DollarToken(q, 0);
    assert Params(q, m, 3) == [];
    assert Params(q, m, 0) == [0];
    assert TagEnd(q, 0) == 0;
    PlainPiece(q, m, 1);
    assert PieceAt(q, m, 0) == Raw;
    CharsRaw(q, m, 1, 3);
    assert Slots(q, m, 3) == [];
    NotFaithfulFails(q, m);
  }

  /** A quote inside a quoted identifier hides the parameter behind it from the scan. */
  lemma IdentifierHides(m: nat)
    requires m >= 1
    ensures Fails("\"'\"$1", m)
  {
    hide Fails;
    var q := "\"'\"$1";
    assert |q| == 5 && q[0] == '"' && q[1] == '\'' && q[2] == '"' && q[3] == '$' && q[4] == '1';
    assert IdentClose(q, 2) == 3 && IdentClose(q, 1) == 3;
    assert Read(q, 0) == Lexeme(Ident, 3);
    OneParam(q, m, 3);
    assert Params(q, m, 0) == [] + Params(q, m, 3) == [3];
    NoQuoteAhead(q, 2);
    assert PieceAt(q, m, 1) == Quoted && PieceEnd(q, m, 1) == 5;
    CharsRaw(q, m, 0, 1);
    assert Slots(q, m, 5) == [];
    NotFaithfulFails(q, m);
  }

  lemma {:induction false} NoQuoteAhead(q: string, i: nat)
    requires i <= |q| && forall k :: i <= k < |q| ==> q[k] != '\''
    ensures Quote(q, i).end == |q|
    decreases |q| - i
  {
    if i < |q| {
      NoQuoteAhead(q, i + 1);
    }
  }

  lemma OneParam(q: string, m: nat, n: nat)
    requires n + 2 == |q| && q[n] == '$' && q[n + 1] == '1' && m >= 1
    ensures Read(q, n) == Lexeme(Param(1), n + 2) && IsParam(q, m, n) && Params(q, m, n) == [n]
  {
    OneDigit(q, n);
    DollarToken(q, n);
    assert Params(q, m, n + 2) == [];
  }

  /** A parameter behind the word U and an ampersand becomes part of a constant with Unicode escapes. */
  lemma UnicodePrefix(m: nat)
    requires m >= 1
    ensures Fails("u&$1", m)
  {
    hide Fails;
    var q := "u&$1";
    OneParam(q, m, 2);
    assert WordEnd(q, 1) == 1;
    WordToken(q, 0);
    assert Read(q, 0) == Lexeme(Word, 1);
    assert Meets(q, m, 0);
    NotFaithfulFails(q, m);
  }

  /** Dollar tags that belong to words hide the parameter between them from the scan. */
  lemma WordsHide(m: nat)
    requires m >= 1
    ensures Fails("a$$ $1 b$$", m)
  {
    hide Fails;
    var q := "a$$ $1 b$$";
    HiddenSlot(q, m);
    SeenParam(q, m);
    NotFaithfulFails(q, m);
  }

  lemma HiddenSlot(q: string, m: nat)
    requires q == "a$$ $1 b$$"
    ensures Slots(q, m, 0) == []
  {
    assert |q| == 10 && q[1] == '$' && q[2] == '$' && q[8] == '$' && q[9] == '$';
    var tag := q[1..3];
    assert tag == "$$";
    assert forall k :: 3 <= k < 8 ==> q[k] != '$' || q[k + 1] != '$';
    assert OccursAt(q, tag, 8);
    forall j | 3 <= j < 8 ensures !OccursAt(q, tag, j) {
      NotThere(q, tag, j);
    }
    hide Find;
    assert TagEnd(q, 1) == 3 && Closing(q, 1) == 8;
    assert PieceAt(q, m, 1) == Dollar && PieceEnd(q, m, 1) == 10;
    CharsRaw(q, m, 0, 1);
    assert Slots(q, m, 10) == [];
  }

  lemma NotThere(q: string, tag: string, j: nat)
    requires tag == "$$" && j + 1 < |q| && (q[j] != '$' || q[j + 1] != '$')
    ensures !OccursAt(q, tag, j)
  {
    assert tag[0] == '$' && tag[1] == '$';
  }

  lemma SeenParam(q: string, m: nat)
    requires q == "a$$ $1 b$$" && m >= 1
    ensures Params(q, m, 0) != []
  {
    hide ConstEnd, IdentClose, WordEnd;
    assert |q| == 10 && q[0] == 'a' && q[1] == '$' && q[2] == '$' && q[3] == ' ' && q[4] == '$' && q[5] == '1' && q[6] == ' ';
    WordEndIs(q, 0, 3);
    WordToken(q, 0);
    assert Read(q, 0) == Lexeme(Word, 3);
    WhiteToken(q, 3);
    DigitsEndIs(q, 5, 6);
    assert Number(q, 5, 5) == 0 && Number(q, 5, 6) == 1;
    DollarToken(q, 4);
    assert IsParam(q, m, 4);
    hide Read;
    assert Params(q, m, 4) == [4] + Params(q, m, Read(q, 4).end);
    assert Params(q, m, 3) == [] + Params(q, m, 4);
    assert Params(q, m, 0) == [] + Params(q, m, 3);
  }

  /** A parameter behind a word and a blank is replaced as asked. */
  lemma PlainIsFaithful(w: string, m: nat)
    requires w != "" && IsTagStart(w[0]) && (forall k :: 0 <= k < |w| ==> IsTagChar(w[k])) && m >= 1
    ensures Faithful(w + " $1", m)
  {
    var q, n := w + " $1", |w|;
    assert q[n] == ' ' && q[n + 1] == '$' && q[n + 2] == '1' && forall k :: 0 <= k < n ==> q[k] == w[k];
    OneSlot(q, m, n + 1);
    CharsRaw(q, m, 0, n + 1);
    OneParam(q, m, n + 1);
    WordThenBlank(q, m, n);
    NoDangling(q, m, 0, n + 1);
  }

  lemma WordThenBlank(q: string, m: nat, n: nat)
    requires 0 < n && n + 3 == |q| && IsTagStart(q[0]) && (forall k :: 0 <= k < n ==> IsTagChar(q[k])) && q[n] == ' '
    requires Read(q, n + 1) == Lexeme(Param(1), n + 3) && m >= 1
    ensures Params(q, m, 0) == [n + 1] && Apart(q, m, 0)
  {
    hide ConstEnd, IdentClose, WordEnd, Read;
    WordEndIs(q, 0, n);
    WordToken(q, 0);
    assert Read(q, 0) == Lexeme(Word, n);
    WhiteToken(q, n);
    assert Params(q, m, n + 3) == [] && Apart(q, m, n + 3);
    assert SepEnd(q, n + 3) == n + 3;
    assert Params(q, m, n + 1) == [n + 1] && Apart(q, m, n + 1);
    assert Params(q, m, n) == [] + Params(q, m, n + 1) && Apart(q, m, n);
  }

  lemma {:induction false} NoDangling(q: string, m: nat, i: nat, n: nat)
    requires i <= n && n + 2 == |q| && (forall k :: i <= k < n ==> q[k] != '\'' && q[k] != '$')
    requires PieceAt(q, m, n) == Slot(1) && q[n] == '$' && q[n + 1] == '1'
    ensures !Dangles(q, m, i)
    decreases n - i
  {
    hide PieceAt;
    if i < n {
      PlainPiece(q, m, i);
      NoDangling(q, m, i + 1, n);
    } else {
      OneDigit(q, n);
      assert !Dangles(q, m, n + 2);
    }
  }

  // ---------------------------------------------------------------- parameters that meet

  /** Two parameters with nothing or one line break between them: what is written. */
  lemma TwoWritten(q: string, gap: string, lits: seq<string>)
    requires (gap == "" || gap == "\n") && q == "$1" + gap + "$2" && |lits| == 2
    ensures Out(q, lits, 0) == lits[0] + gap + lits[1]
  {
    hide Find, Out;
    var j := 2 + |gap|;
    TwoSlots(q, gap);
    var rest := Out(q, lits, j);
    SlotsUnfold(q, lits, j);
    OutDone(q, lits);
    assert rest == lits[1] + "" == lits[1];
    if gap == "\n" {
      PlainPiece(q, 2, 2);
      SlotsUnfold(q, lits, 2);
      assert Text(q, lits, 2) == gap;
    }
    SlotsUnfold(q, lits, 0);
    assert lits[0] + (gap + lits[1]) == lits[0] + gap + lits[1];
    assert gap == "" ==> gap + lits[1] == lits[1];
  }

  lemma TwoSlots(q: string, gap: string)
    requires (gap == "" || gap == "\n") && q == "$1" + gap + "$2"
    ensures var j := 2 + |gap|;
            && |q| == j + 2 && PieceAt(q, 2, 0) == Slot(1) && PieceEnd(q, 2, 0) == 2
            && PieceAt(q, 2, j) == Slot(2) && PieceEnd(q, 2, j) == j + 2 && (j == 3 ==> q[2] == '\n')
  {
    hide Find;
    var j := 2 + |gap|;
    assert q[0] == '$' && q[1] == '1' && q[j] == '$' && q[j + 1] == '2' && (j == 3 ==> q[2] == '\n');
    assert TagEnd(q, 0) == 0 && TagEnd(q, j) == j;
    assert DigitsEnd(q, 2) == 2 && DigitsEnd(q, 1) == 2;
    OneDigit(q, j);
    assert Number(q, 1, 1) == 0 && Number(q, 1, 2) == 1;
  }

  /** A literal in the middle of a text is a quoted region up to its closing quote. */
  lemma LiteralInside(p: string, t: string, o: nat)
    requires Same(Literal(p), 0, t, o, |Literal(p)|)
    ensures var c := o + |Literal(p)| - 1;
            o < c < |t| && t[o] == '\'' && t[c] == '\'' && Quote(t, o + 1) == Pre(StripNul(p, 0), Quote(t, c))
  {
    hide Body, StripNul, Quote;
    SameSplit("'" + Body(p, 0), "'", t, o);
    SameSplit("'", Body(p, 0), t, o);
    assert "'"[0] == t[o] && "'"[0] == t[o + |Literal(p)| - 1];
    BodyReads(p, 0, t, o + 1);
  }

  lemma TwoLiterals(a: string, gap: string, b: string, t: string)
    requires t == Literal(a) + gap + Literal(b)
    ensures Same(Literal(a), 0, t, 0, |Literal(a)|) && Same(Literal(b), 0, t, |Literal(a)| + |gap|, |Literal(b)|)
    ensures gap != "" ==> t[|Literal(a)|] == gap[0]
  {
    hide Literal;
    var la, lb := Literal(a), Literal(b);
    forall k | 0 <= k < |la| ensures la[k] == t[k] {}
    forall k | 0 <= k < |lb| ensures lb[k] == t[k + |la| + |gap|] {}
  }

  /** Whatever the parameters are, placeholders that touch are read as one string with a quote
      between their texts, and placeholders on successive lines as one string without it. */
  lemma MeetingPlaceholders(gap: string, a: string, b: string)
    requires gap == "" || gap == "\n"
    ensures var t := Out("$1" + gap + "$2", Literals([a, b]), 0);
            && t == Literal(a) + gap + Literal(b) && Lex(t, 0) == [Token(Str, t)]
            && Value(Token(Str, t)) == StripNul(a, 0) + (if gap == "" then "'" else "") + StripNul(b, 0)
  {
    hide Out, Literal, Literals, Lex, Value, StripNul, ConstValue, ConstEnd;
    TwoWritten("$1" + gap + "$2", gap, Literals([a, b]));
    var t := Literal(a) + gap + Literal(b);
    LiteralStart(a);
    if gap == "" {
      TouchingRead(a, b, t);
    } else {
      SplitRead(a, b, t);
    }
    OneConstant(t);
  }

  /** A literal that no quote follows is a closed region. */
  lemma LiteralClosed(p: string, t: string, o: nat)
    requires Same(Literal(p), 0, t, o, |Literal(p)|)
    requires var e := o + |Literal(p)|; e < |t| ==> t[e] != '\''
    ensures t[o] == '\'' && Quote(t, o + 1) == Region(o + |Literal(p)|, StripNul(p, 0), true)
  {
    hide Quote, Literal, StripNul, Same;
    SameBounds(Literal(p), 0, t, o, |Literal(p)|);
    LiteralInside(p, t, o);
    QuoteUnfold(t, o + |Literal(p)| - 1);
    assert StripNul(p, 0) + "" == StripNul(p, 0);
  }

  lemma TouchingRead(a: string, b: string, t: string)
    requires t == Literal(a) + "" + Literal(b)
    ensures ConstEnd(t, 1, Str) == |t| && ConstValue(t, 1) == StripNul(a, 0) + "'" + StripNul(b, 0)
  {
    hide Quote, Literal, StripNul, PartEnd, ConstEnd, Continues, Same;
    var c := |Literal(a)| - 1;
    TwoLiterals(a, "", b, t);
    LiteralInside(a, t, 0);
    LiteralClosed(b, t, c + 1);
    QuoteUnfold(t, c);
    PartIsQuote(t, 1);
    NothingContinues(t);
    ConstUnfold(t, 1, Str);
    Assoc(StripNul(a, 0), "'", StripNul(b, 0));
  }

  lemma SplitRead(a: string, b: string, t: string)
    requires t == Literal(a) + "\n" + Literal(b)
    ensures ConstEnd(t, 1, Str) == |t| && ConstValue(t, 1) == StripNul(a, 0) + "" + StripNul(b, 0)
  {
    hide *;
    var e := |Literal(a)|;
    SplitParts(a, b, t);
    ConstUnfold(t, 1, Str);
    ConstUnfold(t, e + 2, Str);
    ValueUnfold(t, 1);
    ValueUnfold(t, e + 2);
    assert StripNul(a, 0) + "" == StripNul(a, 0);
  }

  lemma SplitParts(a: string, b: string, t: string)
    requires t == Literal(a) + "\n" + Literal(b)
    ensures var e := |Literal(a)|;
            && 1 <= e && e + 2 <= |t| && PartEnd(t, 1, Str) == e && PartEnd(t, e + 2, Str) == |t|
            && Quote(t, 1).closed && Quote(t, 1).end == e && Quote(t, 1).value == StripNul(a, 0)
            && Quote(t, e + 2).closed && Quote(t, e + 2).end == |t| && Quote(t, e + 2).value == StripNul(b, 0)
            && SepEnd(t, e) == e + 1 && Continues(t, e) && !Continues(t, |t|)
  {
    hide Quote, Literal, StripNul, PartEnd, ConstEnd, Continues, Same, SepEnd, ConstValue;
    var e := |Literal(a)|;
    TwoLiterals(a, "\n", b, t);
    LiteralClosed(a, t, 0);
    LiteralClosed(b, t, e + 1);
    PartIsQuote(t, 1);
    PartIsQuote(t, e + 2);
    NothingContinues(t);
    BreakContinues(t, e);
  }

  lemma ValueUnfold(t: string, i: nat)
    requires i <= |t|
    ensures var r := Quote(t, i);
            ConstValue(t, i) == if r.closed && Continues(t, r.end) then r.value + ConstValue(t, SepEnd(t, r.end) + 1) else r.value
  {
    hide Quote, SepEnd, Break;
  }

  lemma BreakContinues(t: string, e: nat)
    requires e + 1 < |t| && t[e] == '\n' && t[e + 1] == '\''
    ensures SepEnd(t, e) == e + 1 && Continues(t, e)
  {
    assert SepEnd(t, e + 1) == e + 1;
    assert IsBreak(t[e]);
  }

  lemma OneConstant(t: string)
    requires t != "" && t[0] == '\'' && ConstEnd(t, 1, Str) == |t|
    ensures Lex(t, 0) == [Token(Str, t)] && Value(Token(Str, t)) == ConstValue(t, 1)
  {
    hide ConstEnd, Read, ConstValue;
    QuoteToken(t, 0);
    assert t[0..|t|] == t;
    assert Lex(t, |t|) == [];
  }
}
