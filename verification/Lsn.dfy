/** The text form of log positions of internal/router/lsn.go, the pg_lsn type of section 8.20 of the
    PostgreSQL 16 documentation. */
module Lsn {
  import opened Wrappers
  import SqlText

  const HALF: int := 0x1_0000_0000

  /** Position from its high and low 32 bits. */
  function Join(hi: nat, lo: nat): nat {
    hi * HALF + lo
  }

  predicate IsHex(c: char) {
    '0' <= c <= '9' || 'a' <= c <= 'f' || 'A' <= c <= 'F'
  }

  predicate AllHex(s: string) {
    forall i :: 0 <= i < |s| ==> IsHex(s[i])
  }

  function HexDigit(c: char): (d: nat)
    requires IsHex(c)
    ensures d < 16 && (d == 0 <==> c == '0')
  {
    if '0' <= c <= '9' then c as int - 48
    else if 'a' <= c <= 'f' then c as int - 87
    else c as int - 55
  }

  function HexChar(d: nat): (c: char)
    requires d < 16
    ensures IsHex(c)
  {
    if d < 10 then (d + 48) as char else (d + 55) as char
  }

  /** The value of hexadecimal digits. */
  function HexValue(s: string): nat
    requires AllHex(s)
  {
    if s == "" then 0 else 16 * HexValue(s[..|s| - 1]) + HexDigit(s[|s| - 1])
  }

  /** strconv.ParseUint with base 16 and 32 bits. */
  function ParseUint(s: string): Result<nat> {
    if s == "" || !AllHex(s) || HexValue(s) >= HALF then Err else Ok(HexValue(s))
  }

  /** ParseLSN. */
  function Parse(s: string): Result<nat> {
    var at := SqlText.Find(s, "/", 0);
    if at < 0 then Err
    else
      var hi, lo := ParseUint(s[..at]), ParseUint(s[at + 1..]);
      if hi.Err? || lo.Err? then Err else Ok(Join(hi.value, lo.value))
  }

  /** The verb %X. */
  function Hex(n: nat): string {
    if n < 16 then [HexChar(n)] else Hex(n / 16) + [HexChar(n % 16)]
  }

  /** LSN.String. */
  function Format(lsn: nat): string {
    Hex(lsn / HALF % HALF) + "/" + Hex(lsn % HALF)
  }

  // ---------------------------------------------------------------- hexadecimal text

  /** The sixteen digits, in either case. */
  lemma HexDigits(c: char)
    ensures IsHex(c) <==> exists d :: 0 <= d < 16 && ("0123456789abcdef"[d] == c || "0123456789ABCDEF"[d] == c)
    ensures IsHex(c) ==> "0123456789abcdef"[HexDigit(c)] == c || "0123456789ABCDEF"[HexDigit(c)] == c
  {
    var lower, upper := "0123456789abcdef", "0123456789ABCDEF";
    assert |lower| == 16 && |upper| == 16;
    forall d | 0 <= d < 16 ensures lower[d] as int == (if d < 10 then 48 + d else 87 + d) && upper[d] as int == (if d < 10 then 48 + d else 55 + d) {
      DigitRows(d);
    }
    if IsHex(c) {
      var d := HexDigit(c);
      assert lower[d] == c || upper[d] == c;
    }
  }

  lemma DigitRows(d: nat)
    requires d < 16
    ensures "0123456789abcdef"[d] as int == if d < 10 then 48 + d else 87 + d
    ensures "0123456789ABCDEF"[d] as int == if d < 10 then 48 + d else 55 + d
  {
    assert "0123456789abcdef"[0] == '0' && "0123456789abcdef"[9] == '9' && "0123456789abcdef"[15] == 'f';
  }

  lemma HexCharDigit(d: nat)
    requires d < 16
    ensures HexDigit(HexChar(d)) == d
  {}

  lemma {:induction false} HexReads(n: nat)
    ensures Hex(n) != "" && AllHex(Hex(n)) && HexValue(Hex(n)) == n
  {
    HexCharDigit(n % 16);
    if n < 16 {
      HexCharDigit(n);
      assert Hex(n)[..0] == "";
    } else {
      HexReads(n / 16);
      assert Hex(n)[..|Hex(n)| - 1] == Hex(n / 16);
    }
  }

  /** Upper case, without leading zeros but with at least one digit. */
  function Canonical(s: string): string {
    if |s| > 1 && s[0] == '0' then Canonical(s[1..]) else SqlText.Upper(s)
  }

  lemma {:induction false} LeadingZero(s: string)
    requires s != "" && AllHex(s) && s[0] == '0'
    ensures HexValue(s) == HexValue(s[1..])
    decreases |s|
  {
    if |s| > 1 {
      var t := s[..|s| - 1];
      LeadingZero(t);
      assert s[1..][..|s| - 2] == t[1..];
    } else {
      assert s[..0] == "";
    }
  }

  lemma UpperDigit(c: char)
    requires IsHex(c)
    ensures HexChar(HexDigit(c)) == SqlText.UpperChar(c)
  {}

  lemma HexAppend(v: nat, d: nat)
    requires v >= 1 && d < 16
    ensures Hex(16 * v + d) == Hex(v) + [HexChar(d)]
  {
    assert (16 * v + d) / 16 == v && (16 * v + d) % 16 == d;
  }

  lemma {:induction false} UpperAppend(s: string)
    requires s != ""
    ensures SqlText.Upper(s) == SqlText.Upper(s[..|s| - 1]) + [SqlText.UpperChar(s[|s| - 1])]
    decreases |s|
  {
    var t := s[..|s| - 1];
    if |s| == 1 {
      assert s[1..] == "" && t == "";
    } else {
      UpperAppend(s[1..]);
      assert t[1..] == s[1..][..|s| - 2];
    }
  }

  lemma {:induction false} NoLeadingZero(s: string)
    requires s != "" && AllHex(s) && (|s| == 1 || s[0] != '0')
    ensures Hex(HexValue(s)) == SqlText.Upper(s)
    ensures s[0] != '0' ==> HexValue(s) >= 1
    decreases |s|
  {
    hide Hex, SqlText.Upper, HexDigit, HexChar;
    var t, d := s[..|s| - 1], HexDigit(s[|s| - 1]);
    UpperDigit(s[|s| - 1]);
    UpperAppend(s);
    if |s| == 1 {
      assert t == "" && SqlText.Upper(t) == "";
      assert HexValue(s) == d;
      HexOne(d);
    } else {
      assert t[0] == s[0];
      NoLeadingZero(t);
      HexAppend(HexValue(t), d);
    }
  }

  lemma HexOne(d: nat)
    requires d < 16
    ensures Hex(d) == [HexChar(d)]
  {}

  lemma {:induction false} HexIsCanonical(s: string)
    requires s != "" && AllHex(s)
    ensures Hex(HexValue(s)) == Canonical(s)
    decreases |s|
  {
    if |s| > 1 && s[0] == '0' {
      LeadingZero(s);
      HexIsCanonical(s[1..]);
    } else {
      NoLeadingZero(s);
    }
  }

  // ---------------------------------------------------------------- positions

  lemma HalvesOf(hi: nat, lo: nat)
    requires hi < HALF && lo < HALF
    ensures Join(hi, lo) / HALF == hi && Join(hi, lo) % HALF == lo && Join(hi, lo) < HALF * HALF
  {}

  /** The first slash splits the text. */
  lemma SlashAt(a: string, b: string)
    requires AllHex(a)
    ensures SqlText.Find(a + "/" + b, "/", 0) == |a|
  {
    var s := a + "/" + b;
    assert SqlText.OccursAt(s, "/", |a|);
    forall j | 0 <= j < |a| ensures !SqlText.OccursAt(s, "/", j) {
      assert s[j] == a[j];
      assert "/"[0] == '/';
    }
  }

  /** Parsing the text of a 64-bit position gives it back. */
  lemma FormatThenParse(lsn: nat)
    requires lsn < HALF * HALF
    ensures Parse(Format(lsn)) == Ok(lsn)
  {
    hide Hex, HexValue;
    var hi, lo := lsn / HALF, lsn % HALF;
    assert hi % HALF == hi && Join(hi, lo) == lsn;
    HexReads(hi);
    HexReads(lo);
    SlashAt(Hex(hi), Hex(lo));
    var s := Format(lsn);
    assert s[..|Hex(hi)|] == Hex(hi) && s[|Hex(hi)| + 1..] == Hex(lo);
  }

  /** The text of a parsed position is the parsed text in canonical form. */
  lemma ParseThenFormat(s: string)
    requires Parse(s).Ok?
    ensures var at := SqlText.Find(s, "/", 0);
            && at >= 0 && Parse(s).value < HALF * HALF
            && Format(Parse(s).value) == Canonical(s[..at]) + "/" + Canonical(s[at + 1..])
  {
    hide Hex, HexValue, Canonical;
    var at := SqlText.Find(s, "/", 0);
    var a, b := s[..at], s[at + 1..];
    var hi, lo := HexValue(a), HexValue(b);
    HalvesOf(hi, lo);
    HexIsCanonical(a);
    HexIsCanonical(b);
    assert hi % HALF == hi;
  }

  /** Positions compare as their halves do, high half first. */
  lemma OrderByHalves(hi1: nat, lo1: nat, hi2: nat, lo2: nat)
    requires lo1 < HALF && lo2 < HALF
    ensures Join(hi1, lo1) < Join(hi2, lo2) <==> hi1 < hi2 || (hi1 == hi2 && lo1 < lo2)
  {
    if hi1 < hi2 {
      assert hi1 * HALF + HALF <= hi2 * HALF;
    } else if hi2 < hi1 {
      assert hi2 * HALF + HALF <= hi1 * HALF;
    }
  }
}
