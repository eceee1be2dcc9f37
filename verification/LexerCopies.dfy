/** The readers of the lexer on text that was copied from one string into another: each reads what it
    read before, depending only on what follows the copied text. */
module LexerCopies {
  import opened SqlText
  import opened SqlLexer

  // ---------------------------------------------------------------- text copied from one string to another

  /** s from i on and t from j on agree on n characters. */
  predicate Same(s: string, i: nat, t: string, j: nat, n: nat) {
    i + n <= |s| && j + n <= |t| && forall k :: i <= k < i + n ==> s[k] == t[k - i + j]
  }

  lemma SameSplit(a: string, b: string, t: string, j: nat)
    requires Same(a + b, 0, t, j, |a| + |b|)
    ensures Same(a, 0, t, j, |a|) && Same(b, 0, t, j + |a|, |b|)
  {
    forall k | 0 <= k < |a| ensures a[k] == t[k + j] {
      assert (a + b)[k] == a[k];
    }
    forall k | 0 <= k < |b| ensures b[k] == t[k + j + |a|] {
      assert (a + b)[k + |a|] == b[k];
    }
  }

  lemma SameSlice(s: string, i: nat, t: string, j: nat, n: nat)
    requires Same(s, i, t, j, n)
    ensures t[j..j + n] == s[i..i + n]
  {
    var a, b := s[i..i + n], t[j..j + n];
    forall d | 0 <= d < n ensures a[d] == b[d] {
      assert s[i + d] == t[i + d - i + j];
    }
  }

  lemma SamePart(s: string, i: nat, t: string, j: nat, n: nat, from: nat, m: nat)
    requires Same(s, i, t, j, n) && i <= from && from + m <= i + n
    ensures Same(s, from, t, from - i + j, m)
  {}

  lemma SameAt(s: string, i: nat, t: string, j: nat, n: nat, k: nat)
    requires Same(s, i, t, j, n) && i <= k < i + n
    ensures k < |s| && k - i + j < |t| && s[k] == t[k - i + j]
  {}

  lemma SameBounds(s: string, i: nat, t: string, j: nat, n: nat)
    requires Same(s, i, t, j, n)
    ensures i + n <= |s| && j + n <= |t|
  {}

  lemma BreakSame(q: string, e: nat, t: string, o: nat, n: nat)
    requires Same(q, e, t, o, n)
    ensures Break(q, e, e + n) <==> Break(t, o, o + n)
  {
    if k :| e <= k < e + n && IsBreak(q[k]) {
      assert IsBreak(t[k - e + o]);
    }
    if k :| o <= k < o + n && IsBreak(t[k]) {
      assert q[k - o + e] == t[k];
    }
  }

  // ---------------------------------------------------------------- readers on copied text

  lemma {:induction false} StopIs(s: string, i: nat, r: nat)
    requires i <= r <= |s| && (r < |s| ==> IsBreak(s[r])) && forall k :: i <= k < r ==> !IsBreak(s[k])
    ensures CommentStop(s, i) == r
    decreases r - i
  {
    if i < r {
      StopIs(s, i + 1, r);
    }
  }

  /** A line comment ends at the same place when a line break or the end follows it. */
  lemma StopSame(q: string, i: nat, t: string, o: nat)
    requires i <= |q| && Same(q, i, t, o, CommentStop(q, i) - i)
    requires var r, r' := CommentStop(q, i), CommentStop(q, i) - i + o; if r < |q| then r' < |t| && t[r'] == q[r] else r' == |t|
    ensures CommentStop(t, o) == CommentStop(q, i) - i + o
  {
    hide CommentStop;
    var r := CommentStop(q, i);
    forall k | o <= k < r - i + o ensures !IsBreak(t[k]) {
      assert q[k - o + i] == t[k];
    }
    StopIs(t, o, r - i + o);
  }

  /** A block comment closes where it did; one that does not close does so nowhere. */
  lemma BlockUnfold(s: string, i: nat, depth: nat)
    requires i <= |s| && depth > 0
    ensures BlockClose(s, i, depth) ==
            if i + 1 >= |s| then -1
            else if Pair(s, i, '/', '*') then BlockClose(s, i + 2, depth + 1)
            else if Pair(s, i, '*', '/') then (if depth == 1 then i + 2 else BlockClose(s, i + 2, depth - 1))
            else BlockClose(s, i + 1, depth)
  {}

  lemma {:induction false} BlockSame(q: string, i: nat, depth: nat, t: string, o: nat, n: nat)
    requires i <= |q| && depth > 0 && Same(q, i, t, o, n)
    requires var e := BlockClose(q, i, depth); if e >= 0 then n == e - i else i + n == |q| && o + n == |t|
    ensures BlockClose(t, o, depth) == if BlockClose(q, i, depth) >= 0 then o + n else -1
    decreases |q| - i
  {
    hide BlockClose, Same;
    SameBounds(q, i, t, o, n);
    BlockUnfold(q, i, depth);
    BlockUnfold(t, o, depth);
    if i + 1 < |q| {
      SameAt(q, i, t, o, n, i);
      SameAt(q, i, t, o, n, i + 1);
      if Pair(q, i, '/', '*') {
        SamePart(q, i, t, o, n, i + 2, n - 2);
        BlockSame(q, i + 2, depth + 1, t, o + 2, n - 2);
      } else if Pair(q, i, '*', '/') {
        if depth > 1 {
          SamePart(q, i, t, o, n, i + 2, n - 2);
          BlockSame(q, i + 2, depth - 1, t, o + 2, n - 2);
        }
      } else {
        SamePart(q, i, t, o, n, i + 1, n - 1);
        BlockSame(q, i + 1, depth, t, o + 1, n - 1);
      }
    }
  }

  lemma {:induction false} IdentSame(q: string, i: nat, t: string, o: nat, n: nat)
    requires i <= |q| && Same(q, i, t, o, n)
    requires var e := IdentClose(q, i);
             if e >= 0 then n == e - i && (o + n < |t| ==> t[o + n] != '"') else i + n == |q| && o + n == |t|
    ensures IdentClose(t, o) == if IdentClose(q, i) >= 0 then o + n else -1
    decreases |q| - i
  {
    if i < |q| {
      assert q[i] == t[o];
      if q[i] != '"' {
        SamePart(q, i, t, o, n, i + 1, n - 1);
        IdentSame(q, i + 1, t, o + 1, n - 1);
      } else if i + 1 < |q| && q[i + 1] == '"' {
        assert q[i + 1] == t[o + 1];
        SamePart(q, i, t, o, n, i + 2, n - 2);
        IdentSame(q, i + 2, t, o + 2, n - 2);
      }
    }
  }

  lemma PartUnfold(s: string, i: nat, k: Kind)
    requires i < |s|
    ensures PartEnd(s, i, k) ==
            if k.EscapeStr? && s[i] == '\\' then (if i + 1 == |s| then -1 else PartEnd(s, i + 2, k))
            else if s[i] != '\'' then PartEnd(s, i + 1, k)
            else if Doubles(k) && i + 1 < |s| && s[i + 1] == '\'' then PartEnd(s, i + 2, k)
            else i + 1
  {}

  /** How many characters of a part are read at once: an escape, a doubled quote or any other; none
      at its closing quote or at a backslash that is the end of the text. */
  function Stride(s: string, i: nat, k: Kind): nat
    requires i < |s|
  {
    if k.EscapeStr? && s[i] == '\\' then (if i + 1 == |s| then 0 else 2)
    else if s[i] != '\'' then 1
    else if Doubles(k) && i + 1 < |s| && s[i + 1] == '\'' then 2
    else 0
  }

  lemma StrideMoves(s: string, i: nat, k: Kind)
    requires i < |s|
    ensures i + Stride(s, i, k) <= |s|
    ensures Stride(s, i, k) > 0 ==> PartEnd(s, i, k) == PartEnd(s, i + Stride(s, i, k), k)
    ensures Stride(s, i, k) == 0 ==> PartEnd(s, i, k) == if s[i] == '\'' then i + 1 else -1
  {
    hide PartEnd;
    PartUnfold(s, i, k);
  }

  lemma StrideSame(q: string, i: nat, k: Kind, t: string, o: nat, n: nat)
    requires i < |q| && o < |t| && q[i] == t[o] && Same(q, i, t, o, n)
    requires 0 < Stride(q, i, k) <= n
    ensures Stride(t, o, k) == Stride(q, i, k)
  {
    hide Same;
    SameBounds(q, i, t, o, n);
    if n > 1 {
      SameAt(q, i, t, o, n, i + 1);
    }
  }

  /** The part of a constant that has n characters left in q, or no end, is read in t as if it were
      there, unless a quote follows that makes it go on. */
  predicate PartAgrees(q: string, i: nat, k: Kind, t: string, o: nat, n: nat)
    requires i <= |q| && o + n <= |t|
  {
    PartEnd(t, o, k) ==
    if PartEnd(q, i, k) < 0 then -1
    else if Doubles(k) && o + n < |t| && t[o + n] == '\'' then PartEnd(t, o + n + 1, k) else o + n
  }

  lemma PartAgreesBack(q: string, i: nat, k: Kind, t: string, o: nat, n: nat, d: nat)
    requires i + d <= |q| && d <= n && o + n <= |t| && PartAgrees(q, i + d, k, t, o + d, n - d)
    requires PartEnd(q, i, k) == PartEnd(q, i + d, k) && PartEnd(t, o, k) == PartEnd(t, o + d, k)
    ensures PartAgrees(q, i, k, t, o, n)
  {
    hide PartEnd;
    assert o + d + (n - d) == o + n;
  }

  /** The part of a constant ends where it did, unless a quote follows that makes it go on. */
  lemma {:induction false} PartSame(q: string, i: nat, k: Kind, t: string, o: nat, n: nat)
    requires i <= |q| && Same(q, i, t, o, n)
    requires var e := PartEnd(q, i, k); if e >= 0 then n == e - i else i + n == |q| && o + n == |t|
    ensures o + n <= |t| && PartAgrees(q, i, k, t, o, n)
    decreases |q| - i
  {
    hide PartEnd, Same, Stride, PartAgrees, Doubles;
    SameBounds(q, i, t, o, n);
    if i < |q| {
      var d := Stride(q, i, k);
      StrideMoves(q, i, k);
      SameAt(q, i, t, o, n, i);
      if d > 0 {
        StrideSame(q, i, k, t, o, n);
        StrideMoves(t, o, k);
        SamePart(q, i, t, o, n, i + d, n - d);
        PartSame(q, i + d, k, t, o + d, n - d);
        PartAgreesBack(q, i, k, t, o, n, d);
      } else {
        PartLast(q, i, k, t, o, n);
      }
    } else {
      PartNone(q, i, k, t, o, n);
    }
  }

  lemma PartLast(q: string, i: nat, k: Kind, t: string, o: nat, n: nat)
    requires i < |q| && o < |t| && q[i] == t[o] && Stride(q, i, k) == 0 && o + n <= |t|
    requires if q[i] == '\'' then PartEnd(q, i, k) == i + 1 && n == 1
             else PartEnd(q, i, k) == -1 && i + n == |q| && o + n == |t|
    ensures PartAgrees(q, i, k, t, o, n)
  {
    hide PartEnd;
    PartUnfold(t, o, k);
  }

  lemma PartNone(q: string, i: nat, k: Kind, t: string, o: nat, n: nat)
    requires i == |q| && o + n <= |t|
    requires n == 0 && o == |t|
    ensures PartAgrees(q, i, k, t, o, n)
  {}

  /** White space and comments inside copied text, with a character behind them that is copied too. */
  lemma {:induction false} SepInside(q: string, i: nat, t: string, o: nat, n: nat)
    requires i <= |q| && Same(q, i, t, o, n) && SepEnd(q, i) < |q| && SepEnd(q, i) - i < n
    requires q[SepEnd(q, i)] == '\''
    ensures SepEnd(t, o) == SepEnd(q, i) - i + o
    decreases |q| - i
  {
    hide CommentStop, SepEnd, Same;
    SameBounds(q, i, t, o, n);
    SameAt(q, i, t, o, n, i);
    SepUnfold(q, i);
    SepUnfold(t, o);
    if IsWhite(q[i]) {
      SamePart(q, i, t, o, n, i + 1, n - 1);
      SepInside(q, i + 1, t, o + 1, n - 1);
    } else if i + 1 < |q| && q[i + 1] == '-' && q[i] == '-' {
      var r := CommentStop(q, i + 2);
      SepMonotone(q, r);
      SameAt(q, i, t, o, n, i + 1);
      SamePart(q, i, t, o, n, i + 2, r - (i + 2));
      SameAt(q, i, t, o, n, r);
      StopSame(q, i + 2, t, o + 2);
      SamePart(q, i, t, o, n, r, n - (r - i));
      SepInside(q, r, t, r - i + o, n - (r - i));
    }
  }

  lemma SepUnfold(s: string, i: nat)
    requires i <= |s|
    ensures SepEnd(s, i) == if i == |s| then i else if IsWhite(s[i]) then SepEnd(s, i + 1)
                            else if Pair(s, i, '-', '-') then SepEnd(s, CommentStop(s, i + 2)) else i
  {}

  lemma SepMonotone(s: string, i: nat)
    requires i <= |s|
    ensures i <= SepEnd(s, i) <= |s|
  {}

  /** A constant that is copied whole: what it is read as depends on what follows it. */
  lemma {:induction false} ConstSame(q: string, i: nat, k: Kind, t: string, o: nat, n: nat)
    requires i <= |q| && Same(q, i, t, o, n)
    requires var e := ConstEnd(q, i, k); if e >= 0 then n == e - i else i + n == |q| && o + n == |t|
    ensures ConstEnd(q, i, k) < 0 ==> ConstEnd(t, o, k) == -1
    ensures ConstEnd(q, i, k) >= 0 ==>
              (ConstEnd(t, o, k) == o + n <==> !(Doubles(k) && o + n < |t| && t[o + n] == '\'') && !Continues(t, o + n))
    decreases |q| - i
  {
    hide PartEnd, Continues, Same, ConstEnd, SepEnd;
    SameBounds(q, i, t, o, n);
    ConstUnfold(q, i, k);
    var e := PartEnd(q, i, k);
    if e >= 0 && Continues(q, e) {
      var w := SepEnd(q, e);
      ContinuesAt(q, e);
      ConstOn(q, i, k, t, o, n);
      SamePart(q, i, t, o, n, w + 1, n - (w + 1 - i));
      ConstSame(q, w + 1, k, t, w + 1 - i + o, n - (w + 1 - i));
    } else {
      ConstLast(q, i, k, t, o, n);
    }
  }

  /** The last part of a constant. */
  lemma ConstLast(q: string, i: nat, k: Kind, t: string, o: nat, n: nat)
    requires i <= |q| && Same(q, i, t, o, n)
    requires var e := PartEnd(q, i, k); if e >= 0 then n == e - i else i + n == |q| && o + n == |t|
    ensures PartEnd(q, i, k) < 0 ==> ConstEnd(t, o, k) == -1
    ensures PartEnd(q, i, k) >= 0 ==>
              (ConstEnd(t, o, k) == o + n <==> !(Doubles(k) && o + n < |t| && t[o + n] == '\'') && !Continues(t, o + n))
  {
    hide PartEnd, Continues, Same, ConstEnd, SepEnd;
    SameBounds(q, i, t, o, n);
    PartSame(q, i, k, t, o, n);
    ConstUnfold(t, o, k);
    if PartEnd(q, i, k) >= 0 && PartEnd(t, o, k) >= 0 && Continues(t, PartEnd(t, o, k)) {
      ContinuesAt(t, PartEnd(t, o, k));
    }
  }

  /** A part of a constant that goes on inside the copied text goes on there too. */
  lemma ConstOn(q: string, i: nat, k: Kind, t: string, o: nat, n: nat)
    requires i <= |q| && Same(q, i, t, o, n) && PartEnd(q, i, k) >= 0 && Continues(q, PartEnd(q, i, k))
    requires SepEnd(q, PartEnd(q, i, k)) < i + n
    ensures var w' := SepEnd(q, PartEnd(q, i, k)) - i + o; w' < |t| && ConstEnd(t, o, k) == ConstEnd(t, w' + 1, k)
  {
    hide PartEnd, Continues, Same, ConstEnd, SepEnd;
    var e := PartEnd(q, i, k);
    SameBounds(q, i, t, o, n);
    ContinuesAt(q, e);
    SamePart(q, i, t, o, n, i, e - i);
    SamePart(q, i, t, o, n, e, n - (e - i));
    SameAt(q, i, t, o, n, e);
    PartSame(q, i, k, t, o, e - i);
    ContinuesInside(q, e, t, e - i + o, n - (e - i));
    ConstUnfold(t, o, k);
  }

  lemma ConstUnfold(s: string, i: nat, k: Kind)
    requires i <= |s|
    ensures var e := PartEnd(s, i, k);
            ConstEnd(s, i, k) == if e >= 0 && Continues(s, e) then ConstEnd(s, SepEnd(s, e) + 1, k) else e
  {
    hide PartEnd, SepEnd, Break;
  }

  lemma ContinuesAt(s: string, e: nat)
    requires e <= |s| && Continues(s, e)
    ensures e < SepEnd(s, e) < |s| && s[SepEnd(s, e)] == '\'' && Break(s, e, SepEnd(s, e)) && s[e] != '\''
  {}

  lemma ContinuesInside(q: string, e: nat, t: string, o: nat, n: nat)
    requires e <= |q| && Same(q, e, t, o, n) && Continues(q, e) && SepEnd(q, e) - e < n
    ensures Continues(t, o) && SepEnd(t, o) == SepEnd(q, e) - e + o
  {
    hide SepEnd;
    var w := SepEnd(q, e);
    SepInside(q, e, t, o, n);
    assert q[w] == t[w - e + o];
    SamePart(q, e, t, o, n, e, w - e);
    BreakSame(q, e, t, o, w - e);
  }

  lemma {:induction false} WordEndIs(s: string, i: nat, r: nat)
    requires i <= r <= |s| && (forall k :: i <= k < r ==> IsWordChar(s[k])) && (r < |s| ==> !IsWordChar(s[r]))
    ensures WordEnd(s, i) == r
    decreases r - i
  {
    if i < r {
      WordEndIs(s, i + 1, r);
    }
  }

  /** A word ends where it did when no word character follows it. */
  lemma WordSame(q: string, i: nat, t: string, o: nat)
    requires i <= |q| && Same(q, i, t, o, WordEnd(q, i) - i)
    requires var w' := o + (WordEnd(q, i) - i); w' < |t| ==> !IsWordChar(t[w'])
    ensures WordEnd(t, o) == o + (WordEnd(q, i) - i)
  {
    hide WordEnd;
    var w := WordEnd(q, i);
    forall k | o <= k < o + (w - i) ensures IsWordChar(t[k]) {
      assert q[k - o + i] == t[k];
    }
    WordEndIs(t, o, o + (w - i));
  }

  /** So does a run of tag characters. */
  lemma RunSame(q: string, i: nat, t: string, o: nat)
    requires i <= |q| && Same(q, i, t, o, TagRun(q, i) - i)
    requires var w' := o + (TagRun(q, i) - i); w' < |t| ==> !IsTagChar(t[w'])
    ensures TagRun(t, o) == o + (TagRun(q, i) - i)
  {
    hide TagRun;
    var w := TagRun(q, i);
    forall k | o <= k < o + (w - i) ensures IsTagChar(t[k]) {
      assert q[k - o + i] == t[k];
    }
    TagRunIs(t, o, o + (w - i));
  }

  lemma {:induction false} DigitsEndIs(s: string, i: nat, r: nat)
    requires i <= r <= |s| && (forall k :: i <= k < r ==> IsDigit(s[k])) && (r < |s| ==> !IsDigit(s[r]))
    ensures DigitsEnd(s, i) == r
    decreases r - i
  {
    if i < r {
      DigitsEndIs(s, i + 1, r);
    }
  }

  lemma {:induction false} NumberSame(q: string, i: nat, e: nat, t: string, o: nat)
    requires i <= e <= |q| && (forall k :: i <= k < e ==> IsDigit(q[k])) && Same(q, i, t, o, e - i)
    ensures (forall k :: o <= k < e - i + o ==> IsDigit(t[k])) && Number(t, o, e - i + o) == Number(q, i, e)
    decreases e
  {
    forall k | o <= k < e - i + o ensures IsDigit(t[k]) {
      assert q[k - o + i] == t[k];
    }
    if i < e {
      SamePart(q, i, t, o, e - i, i, e - 1 - i);
      NumberSame(q, i, e - 1, t, o);
      assert q[e - 1] == t[e - 1 - i + o];
    }
  }

  lemma SameTag(q: string, i: nat, t: string, o: nat)
    requires i <= |q| && TagEnd(q, i) > i && Same(q, i, t, o, TagEnd(q, i) - i)
    ensures TagEnd(t, o) - o == TagEnd(q, i) - i
  {
    var e := TagEnd(q, i);
    assert q[i] == t[o] && q[i + 1] == t[o + 1];
    if q[i + 1] != '$' {
      var r := o + (e - 1 - i);
      forall k | o + 1 <= k < r ensures IsTagChar(t[k]) {
        assert q[k - o + i] == t[k];
      }
      assert q[e - 1] == t[r];
      TagRunIs(t, o + 1, r);
    }
  }

  /** Where a tag first comes again depends only on the text up to there. */
  lemma FirstAgain(q: string, t: string, tag: string, i: nat, o: nat, from: nat, n: nat)
    requires i <= from <= i + n && Same(q, i, t, o, n)
    requires var c := Find(q, tag, from); if c >= 0 then c + |tag| - i == n else i + n == |q| && o + n == |t|
    ensures var c := Find(q, tag, from); Find(t, tag, from - i + o) == if c >= 0 then c - i + o else -1
  {
    hide Find;
    var c, f := Find(q, tag, from), Find(t, tag, from - i + o);
    if c >= 0 {
      assert OccursAt(t, tag, c - i + o) by {
        forall k | 0 <= k < |tag| ensures tag[k] == t[c - i + o + k] {
          assert q[c + k] == t[c - i + o + k];
        }
      }
    }
    if f >= 0 {
      assert OccursAt(q, tag, f - o + i) by {
        forall k | 0 <= k < |tag| ensures tag[k] == q[f - o + i + k] {
          assert tag[k] == t[f + k];
        }
      }
    }
  }

  /** A dollar-quoted region, closed or not, is read as it was. */
  lemma DollarSame(q: string, i: nat, t: string, o: nat, n: nat)
    requires i < |q| && TagEnd(q, i) > i && Same(q, i, t, o, n)
    requires if Closing(q, i) >= 0 then n == DollarEnd(q, i) - i else i + n == |q| && o + n == |t|
    ensures TagEnd(t, o) > o && (Closing(t, o) >= 0 <==> Closing(q, i) >= 0)
    ensures Closing(q, i) >= 0 ==> DollarEnd(t, o) == o + n
  {
    hide TagEnd, Find;
    var l := TagEnd(q, i) - i;
    SamePart(q, i, t, o, n, i, l);
    SameTag(q, i, t, o);
    SameSlice(q, i, t, o, l);
    FirstAgain(q, t, q[i..i + l], i, o, i + l, n);
  }
}
