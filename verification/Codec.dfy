/** The Parse and Bind payloads of internal/protocol/message.go: decoding is exact, that is, a
    payload decodes to a message if and only if it starts with that message's encoding (formats of
    section 55.7 of the PostgreSQL 16 documentation). */
module Codec {
  import opened Wrappers
  import opened Wire

  // ---------------------------------------------------------------- readers

  /** Position of the first zero byte from pos on, or -1. */
  function ZeroFrom(p: Bytes, pos: nat): (r: int)
    requires pos <= |p|
    ensures r == -1 || (pos <= r < |p| && p[r] == 0)
    ensures forall k :: pos <= k < |p| && p[k] == 0 ==> 0 <= r <= k
    decreases |p| - pos
  {
    if pos == |p| then -1 else if p[pos] == 0 then pos else ZeroFrom(p, pos + 1)
  }

  /** A zero-terminated string. */
  function ReadName(p: Bytes, pos: nat): (r: Read<Bytes>)
    requires pos <= |p|
    ensures r.Got? ==> pos <= r.pos <= |p|
  {
    var z := ZeroFrom(p, pos);
    if z < 0 then Fail else Got(p[pos..z], z + 1)
  }

  predicate IsName(s: Bytes) {
    forall k :: 0 <= k < |s| ==> s[k] != 0
  }

  lemma ReadNameExact(p: Bytes, pos: nat, s: Bytes, e: nat)
    requires pos <= |p|
    ensures ReadName(p, pos) == Got(s, e) <==> IsName(s) && Has(p, pos, s + [0]) && e == pos + |s| + 1
  {
    hide ZeroFrom;
    HasSplit(p, pos, s, [0]);
    var z := ZeroFrom(p, pos);
    if ReadName(p, pos) == Got(s, e) {
      forall k | 0 <= k < |s| ensures s[k] == p[pos + k] && s[k] != 0 {}
      assert [0][0] == p[z];
    }
    if IsName(s) && Has(p, pos, s) && Has(p, pos + |s|, [0]) && e == pos + |s| + 1 {
      var zero: Bytes := [0];
      assert zero[0] == p[pos + |s| + 0];
      forall k | pos <= k < pos + |s| ensures p[k] != 0 {
        assert s[k - pos] == p[pos + (k - pos)];
      }
      assert z == pos + |s|;
      assert p[pos..z] == s;
    }
  }

  /** n format codes of 16 bits. */
  function ReadCodes(p: Bytes, pos: nat, n: nat): (r: Read<seq<int>>)
    requires pos <= |p|
    ensures r.Got? ==> pos <= r.pos <= |p|
    decreases n
  {
    if n == 0 then Got([], pos)
    else if pos + 2 > |p| then Fail
    else Cons(Signed16(Get16(p, pos)), ReadCodes(p, pos + 2, n - 1))
  }

  function Cons<T>(x: T, r: Read<seq<T>>): Read<seq<T>> {
    if r.Fail? then Fail else Got([x] + r.value, r.pos)
  }

  predicate AreInt16(xs: seq<int>) {
    forall k :: 0 <= k < |xs| ==> IsInt16(xs[k])
  }

  function PutCodes(xs: seq<int>): (e: Bytes)
    requires AreInt16(xs)
    ensures |e| == 2 * |xs|
  {
    if xs == [] then [] else Put16(Unsigned16(xs[0])) + PutCodes(xs[1..])
  }

  lemma {:induction false} ReadCodesExact(p: Bytes, pos: nat, n: nat, xs: seq<int>, e: nat)
    requires pos <= |p|
    ensures ReadCodes(p, pos, n) == Got(xs, e) <==>
              |xs| == n && AreInt16(xs) && Has(p, pos, PutCodes(xs)) && e == pos + 2 * n
    decreases n
  {
    hide Has, Get16, Put16;
    if n == 0 {
      assert Has(p, pos, []) by {
        HasNothing(p, pos);
      }
    } else if pos + 2 > |p| {
      if |xs| == n && AreInt16(xs) {
        HasLength(p, pos, PutCodes(xs));
      }
    } else if xs != [] {
      var x, rest := xs[0], xs[1..];
      ReadCodesExact(p, pos + 2, n - 1, rest, e);
      CodesHead(xs);
      if IsInt16(x) {
        Get16Exact(p, pos, Unsigned16(x));
        if AreInt16(rest) {
          HasSplit(p, pos, Put16(Unsigned16(x)), PutCodes(rest));
        }
      }
      ConsParts(Signed16(Get16(p, pos)), ReadCodes(p, pos + 2, n - 1), xs, e);
    }
  }

  lemma CodesHead(xs: seq<int>)
    requires xs != []
    ensures AreInt16(xs) <==> IsInt16(xs[0]) && AreInt16(xs[1..])
  {
    assert xs == [xs[0]] + xs[1..];
  }

  lemma ConsParts<T>(x: T, r: Read<seq<T>>, xs: seq<T>, e: nat)
    requires xs != []
    ensures Cons(x, r) == Got(xs, e) <==> x == xs[0] && r == Got(xs[1..], e)
  {
    assert xs == [xs[0]] + xs[1..];
    if r.Got? {
      assert ([x] + r.value)[1..] == r.value;
    }
  }

  lemma HasNothing(p: Bytes, pos: nat)
    requires pos <= |p|
    ensures Has(p, pos, [])
  {}

  lemma HasLength(p: Bytes, pos: nat, e: Bytes)
    ensures Has(p, pos, e) ==> pos + |e| <= |p|
  {}

  /** n parameter values: a length of -1 stands for NULL, other negative lengths are refused. */
  function ReadParams(p: Bytes, pos: nat, n: nat): (r: Read<seq<Option<Bytes>>>)
    requires pos <= |p|
    ensures r.Got? ==> pos <= r.pos <= |p|
    decreases n
  {
    if n == 0 then Got([], pos)
    else
      var r := ReadParam(p, pos);
      if r.Fail? then Fail else Cons(r.value, ReadParams(p, r.pos, n - 1))
  }

  function ReadParam(p: Bytes, pos: nat): (r: Read<Option<Bytes>>)
    requires pos <= |p|
    ensures r.Got? ==> pos <= r.pos <= |p|
  {
    if pos + 4 > |p| then Fail
    else
      var n := Get32(p, pos);
      if n == 0xffff_ffff then Got(None, pos + 4)
      else if n >= 0x8000_0000 || pos + 4 + n > |p| then Fail
      else Got(Some(p[pos + 4..pos + 4 + n]), pos + 4 + n)
  }

  predicate IsParam(x: Option<Bytes>) {
    x.Some? ==> |x.value| < 0x8000_0000
  }

  predicate AreParams(xs: seq<Option<Bytes>>) {
    forall k :: 0 <= k < |xs| ==> IsParam(xs[k])
  }

  function PutParam(x: Option<Bytes>): Bytes
    requires IsParam(x)
  {
    if x.None? then Put32(0xffff_ffff) else Put32(|x.value|) + x.value
  }

  function PutParams(xs: seq<Option<Bytes>>): Bytes
    requires AreParams(xs)
  {
    if xs == [] then [] else PutParam(xs[0]) + PutParams(xs[1..])
  }

  lemma ReadParamExact(p: Bytes, pos: nat, x: Option<Bytes>, e: nat)
    requires pos <= |p|
    ensures ReadParam(p, pos) == Got(x, e) <==> IsParam(x) && Has(p, pos, PutParam(x)) && e == pos + |PutParam(x)|
  {
    hide Get32, Put32, Has;
    if IsParam(x) {
      HasLength(p, pos, PutParam(x));
    }
    if pos + 4 <= |p| {
      if x.None? {
        Get32Exact(p, pos, 0xffff_ffff);
      } else if IsParam(x) {
        Get32Exact(p, pos, |x.value|);
        HasSplit(p, pos, Put32(|x.value|), x.value);
        HasLength(p, pos + 4, x.value);
        if pos + 4 + |x.value| <= |p| {
          SliceHas(p, pos + 4, x.value);
        }
      }
    }
  }

  lemma {:induction false} ReadParamsExact(p: Bytes, pos: nat, n: nat, xs: seq<Option<Bytes>>, e: nat)
    requires pos <= |p|
    ensures ReadParams(p, pos, n) == Got(xs, e) <==>
              |xs| == n && AreParams(xs) && Has(p, pos, PutParams(xs)) && e == pos + |PutParams(xs)|
    decreases n
  {
    hide Has, ReadParam, PutParam;
    if n == 0 {
      HasNothing(p, pos);
    } else {
      var r := ReadParam(p, pos);
      if r.Got? {
        ReadParamExact(p, pos, r.value, r.pos);
      }
      if xs != [] {
        var x, rest := xs[0], xs[1..];
        ParamsHead(xs);
        if IsParam(x) {
          ReadParamExact(p, pos, x, pos + |PutParam(x)|);
          if AreParams(rest) {
            HasSplit(p, pos, PutParam(x), PutParams(rest));
          }
        }
        if r.Got? {
          ReadParamsExact(p, r.pos, n - 1, rest, e);
          ConsParts(r.value, ReadParams(p, r.pos, n - 1), xs, e);
        }
      }
    }
  }

  lemma ParamsHead(xs: seq<Option<Bytes>>)
    requires xs != []
    ensures AreParams(xs) <==> IsParam(xs[0]) && AreParams(xs[1..])
  {
    assert xs == [xs[0]] + xs[1..];
  }

  // ---------------------------------------------------------------- counted lists

  /** A 16-bit count and that many format codes. */
  function ReadCodeList(p: Bytes, pos: nat): (r: Read<seq<int>>)
    requires pos <= |p|
    ensures r.Got? ==> pos <= r.pos <= |p|
  {
    if pos + 2 > |p| then Fail else ReadCodes(p, pos + 2, Get16(p, pos))
  }

  function ReadParamList(p: Bytes, pos: nat): (r: Read<seq<Option<Bytes>>>)
    requires pos <= |p|
    ensures r.Got? ==> pos <= r.pos <= |p|
  {
    if pos + 2 > |p| then Fail else ReadParams(p, pos + 2, Get16(p, pos))
  }

  predicate IsCodeList(xs: seq<int>) {
    |xs| < 0x1_0000 && AreInt16(xs)
  }

  function PutCodeList(xs: seq<int>): Bytes
    requires IsCodeList(xs)
  {
    Put16(|xs|) + PutCodes(xs)
  }

  predicate IsParamList(xs: seq<Option<Bytes>>) {
    |xs| < 0x1_0000 && AreParams(xs)
  }

  function PutParamList(xs: seq<Option<Bytes>>): Bytes
    requires IsParamList(xs)
  {
    Put16(|xs|) + PutParams(xs)
  }

  lemma ReadCodeListExact(p: Bytes, pos: nat, xs: seq<int>, e: nat)
    requires pos <= |p|
    ensures ReadCodeList(p, pos) == Got(xs, e) <==>
              IsCodeList(xs) && Has(p, pos, PutCodeList(xs)) && e == pos + |PutCodeList(xs)|
  {
    hide Has, Get16, Put16, ReadCodes, PutCodes, AreInt16;
    if IsCodeList(xs) {
      HasLength(p, pos, PutCodeList(xs));
      HasSplit(p, pos, Put16(|xs|), PutCodes(xs));
    }
    if pos + 2 <= |p| {
      ReadCodesExact(p, pos + 2, Get16(p, pos), xs, e);
      if |xs| < 0x1_0000 {
        Get16Exact(p, pos, |xs|);
      }
    }
  }

  lemma ReadParamListExact(p: Bytes, pos: nat, xs: seq<Option<Bytes>>, e: nat)
    requires pos <= |p|
    ensures ReadParamList(p, pos) == Got(xs, e) <==>
              IsParamList(xs) && Has(p, pos, PutParamList(xs)) && e == pos + |PutParamList(xs)|
  {
    hide Has, Get16, Put16, ReadParams, PutParams, AreParams;
    if IsParamList(xs) {
      HasLength(p, pos, PutParamList(xs));
      HasSplit(p, pos, Put16(|xs|), PutParams(xs));
    }
    if pos + 2 <= |p| {
      ReadParamsExact(p, pos + 2, Get16(p, pos), xs, e);
      if |xs| < 0x1_0000 {
        Get16Exact(p, pos, |xs|);
      }
    }
  }

  // ---------------------------------------------------------------- Bind

  datatype Bind = Bind(portal: Bytes, statement: Bytes, formats: seq<int>, params: seq<Option<Bytes>>,
                       results: seq<int>)

  predicate IsBind(b: Bind) {
    && IsName(b.portal) && IsName(b.statement)
    && IsCodeList(b.formats) && IsParamList(b.params) && IsCodeList(b.results)
  }

  function EncodeBind(b: Bind): Bytes
    requires IsBind(b)
  {
    (b.portal + [0]) + ((b.statement + [0]) + (PutCodeList(b.formats) + (PutParamList(b.params)
      + PutCodeList(b.results))))
  }

  function DecodeBind(p: Bytes): Result<Bind> {
    var portal := ReadName(p, 0);
    if portal.Fail? then Err
    else
      var statement := ReadName(p, portal.pos);
      if statement.Fail? then Err
      else
        var formats := ReadCodeList(p, statement.pos);
        if formats.Fail? then Err
        else
          var params := ReadParamList(p, formats.pos);
          if params.Fail? then Err
          else
            var results := ReadCodeList(p, params.pos);
            if results.Fail? then Err
            else Ok(Bind(portal.value, statement.value, formats.value, params.value, results.value))
  }

  /** The parts of a Bind stand one after the other. */
  lemma BindParts(p: Bytes, b: Bind)
    requires IsBind(b)
    ensures var s := |b.portal| + 1;
            var f := s + |b.statement| + 1;
            var v := f + |PutCodeList(b.formats)|;
            var r := v + |PutParamList(b.params)|;
            Has(p, 0, EncodeBind(b)) <==>
              && Has(p, 0, b.portal + [0]) && Has(p, s, b.statement + [0]) && Has(p, f, PutCodeList(b.formats))
              && Has(p, v, PutParamList(b.params)) && Has(p, r, PutCodeList(b.results))
  {
    hide Has, PutCodeList, PutParamList, IsCodeList, IsParamList, IsName;
    var results := PutCodeList(b.results);
    var params := PutParamList(b.params) + results;
    var formats := PutCodeList(b.formats) + params;
    var statement := (b.statement + [0]) + formats;
    var s := |b.portal| + 1;
    var f := s + |b.statement| + 1;
    var v := f + |PutCodeList(b.formats)|;
    HasSplit(p, 0, b.portal + [0], statement);
    HasSplit(p, s, b.statement + [0], formats);
    HasSplit(p, f, PutCodeList(b.formats), params);
    HasSplit(p, v, PutParamList(b.params), results);
  }

  lemma DecodedBind(p: Bytes, b: Bind)
    requires DecodeBind(p) == Ok(b)
    ensures IsBind(b) && Has(p, 0, EncodeBind(b))
  {
    hide Has, ReadName, ReadCodeList, ReadParamList, PutCodeList, PutParamList, IsCodeList, IsParamList, IsName, EncodeBind;
    var s := ReadName(p, 0).pos;
    ReadNameExact(p, 0, b.portal, s);
    var f := ReadName(p, s).pos;
    ReadNameExact(p, s, b.statement, f);
    var v := ReadCodeList(p, f).pos;
    ReadCodeListExact(p, f, b.formats, v);
    var r := ReadParamList(p, v).pos;
    ReadParamListExact(p, v, b.params, r);
    ReadCodeListExact(p, r, b.results, ReadCodeList(p, r).pos);
    BindParts(p, b);
  }

  lemma EncodedBind(p: Bytes, b: Bind)
    requires IsBind(b) && Has(p, 0, EncodeBind(b))
    ensures DecodeBind(p) == Ok(b)
  {
    hide Has, ReadName, ReadCodeList, ReadParamList, PutCodeList, PutParamList, IsCodeList, IsParamList, IsName, EncodeBind;
    BindParts(p, b);
    var s := |b.portal| + 1;
    ReadNameExact(p, 0, b.portal, s);
    var f := s + |b.statement| + 1;
    ReadNameExact(p, s, b.statement, f);
    var v := f + |PutCodeList(b.formats)|;
    ReadCodeListExact(p, f, b.formats, v);
    var r := v + |PutParamList(b.params)|;
    ReadParamListExact(p, v, b.params, r);
    ReadCodeListExact(p, r, b.results, r + |PutCodeList(b.results)|);
  }

  /** A payload decodes to a Bind exactly when it starts with the encoding of that Bind: encoding
      then decoding returns the message, with NULL apart from the empty value, and whatever is
      accepted has the encoding of the result as a prefix. */
  lemma BindExact(p: Bytes, b: Bind)
    ensures DecodeBind(p) == Ok(b) <==> IsBind(b) && EncodeBind(b) <= p
  {
    hide EncodeBind, DecodeBind, IsBind;
    if DecodeBind(p) == Ok(b) {
      DecodedBind(p, b);
      HasPrefix(p, EncodeBind(b));
    }
    if IsBind(b) && EncodeBind(b) <= p {
      HasPrefix(p, EncodeBind(b));
      EncodedBind(p, b);
    }
  }

  /** Different messages have different encodings, none the start of another. */
  lemma BindPrefixFree(a: Bind, b: Bind)
    requires IsBind(a) && IsBind(b) && EncodeBind(a) <= EncodeBind(b)
    ensures a == b
  {
    hide EncodeBind, IsBind, DecodeBind;
    BindExact(EncodeBind(b), a);
    BindExact(EncodeBind(b), b);
  }

  // ---------------------------------------------------------------- Parse

  datatype Parse = Parse(name: Bytes, query: Bytes, oids: seq<nat>)

  /** n parameter types of 32 bits. */
  function ReadOids(p: Bytes, pos: nat, n: nat): (r: Read<seq<nat>>)
    requires pos <= |p|
    ensures r.Got? ==> pos <= r.pos <= |p|
    decreases n
  {
    if n == 0 then Got([], pos)
    else if pos + 4 > |p| then Fail
    else Cons(Get32(p, pos), ReadOids(p, pos + 4, n - 1))
  }

  predicate AreOids(xs: seq<nat>) {
    forall k :: 0 <= k < |xs| ==> xs[k] < 0x1_0000_0000
  }

  function PutOids(xs: seq<nat>): (e: Bytes)
    requires AreOids(xs)
    ensures |e| == 4 * |xs|
  {
    if xs == [] then [] else Put32(xs[0]) + PutOids(xs[1..])
  }

  lemma OidsHead(xs: seq<nat>)
    requires xs != []
    ensures AreOids(xs) <==> xs[0] < 0x1_0000_0000 && AreOids(xs[1..])
  {
    assert xs == [xs[0]] + xs[1..];
  }

  lemma {:induction false} ReadOidsExact(p: Bytes, pos: nat, n: nat, xs: seq<nat>, e: nat)
    requires pos <= |p|
    ensures ReadOids(p, pos, n) == Got(xs, e) <==>
              |xs| == n && AreOids(xs) && Has(p, pos, PutOids(xs)) && e == pos + 4 * n
    decreases n
  {
    hide Has, Get32, Put32;
    if n == 0 {
      HasNothing(p, pos);
    } else if pos + 4 > |p| {
      if |xs| == n && AreOids(xs) {
        HasLength(p, pos, PutOids(xs));
      }
    } else if xs != [] {
      var x, rest := xs[0], xs[1..];
      ReadOidsExact(p, pos + 4, n - 1, rest, e);
      OidsHead(xs);
      if x < 0x1_0000_0000 {
        Get32Exact(p, pos, x);
        if AreOids(rest) {
          HasSplit(p, pos, Put32(x), PutOids(rest));
        }
      }
      ConsParts(Get32(p, pos), ReadOids(p, pos + 4, n - 1), xs, e);
    }
  }

  /** Without two bytes of count after the query, the message has no parameter types. */
  function ReadOidList(p: Bytes, pos: nat): (r: Read<seq<nat>>)
    requires pos <= |p|
    ensures r.Got? ==> pos <= r.pos <= |p|
  {
    if pos + 2 > |p| then Got([], pos) else ReadOids(p, pos + 2, Get16(p, pos))
  }

  function DecodeParse(p: Bytes): Result<Parse> {
    var name := ReadName(p, 0);
    if name.Fail? then Err
    else
      var query := ReadName(p, name.pos);
      if query.Fail? then Err
      else
        var oids := ReadOidList(p, query.pos);
        if oids.Fail? then Err else Ok(Parse(name.value, query.value, oids.value))
  }

  predicate IsParse(m: Parse) {
    IsName(m.name) && IsName(m.query) && |m.oids| < 0x1_0000 && AreOids(m.oids)
  }

  function EncodeNames(name: Bytes, query: Bytes): Bytes {
    (name + [0]) + (query + [0])
  }

  function EncodeParse(m: Parse): Bytes
    requires IsParse(m)
  {
    EncodeNames(m.name, m.query) + (Put16(|m.oids|) + PutOids(m.oids))
  }

  lemma ReadNamesExact(p: Bytes, name: Bytes, query: Bytes, e: nat)
    ensures ReadName(p, 0).Got? && ReadName(p, 0).value == name && ReadName(p, ReadName(p, 0).pos) == Got(query, e)
            <==> IsName(name) && IsName(query) && Has(p, 0, EncodeNames(name, query))
                 && e == |EncodeNames(name, query)|
  {
    hide Has, ReadName, IsName;
    var s := |name| + 1;
    HasSplit(p, 0, name + [0], query + [0]);
    ReadNameExact(p, 0, name, s);
    if ReadName(p, 0).Got? {
      ReadNameExact(p, 0, name, ReadName(p, 0).pos);
      ReadNameExact(p, ReadName(p, 0).pos, query, e);
    }
  }

  lemma ReadOidListExact(p: Bytes, pos: nat, xs: seq<nat>)
    requires pos <= |p|
    ensures ReadOidList(p, pos).Got? && ReadOidList(p, pos).value == xs <==>
              if pos + 2 > |p| then xs == []
              else |xs| < 0x1_0000 && AreOids(xs) && Has(p, pos, Put16(|xs|) + PutOids(xs))
  {
    hide Has, Get16, Put16, ReadOids, PutOids, AreOids;
    if pos + 2 <= |p| {
      var n := Get16(p, pos);
      ReadOidsExact(p, pos + 2, n, xs, pos + 2 + 4 * n);
      if ReadOids(p, pos + 2, n).Got? {
        ReadOidsExact(p, pos + 2, n, ReadOids(p, pos + 2, n).value, ReadOids(p, pos + 2, n).pos);
      }
      if |xs| < 0x1_0000 {
        Get16Exact(p, pos, |xs|);
        if AreOids(xs) {
          HasSplit(p, pos, Put16(|xs|), PutOids(xs));
        }
      }
    }
  }

  /** A payload decodes to a Parse exactly when it starts with its encoding, or when the message has
      no parameter types and the payload ends less than two bytes after the query. */
  lemma ParseExact(p: Bytes, m: Parse)
    ensures DecodeParse(p) == Ok(m) <==>
              && IsParse(m)
              && (EncodeParse(m) <= p
                  || (m.oids == [] && EncodeNames(m.name, m.query) <= p && |p| < |EncodeNames(m.name, m.query)| + 2))
  {
    hide Has, ReadName, IsName, ReadOidList, PutOids, EncodeNames, Put16;
    var names := EncodeNames(m.name, m.query);
    ReadNamesExact(p, m.name, m.query, |names|);
    if DecodeParse(p) == Ok(m) {
      ReadNamesExact(p, m.name, m.query, ReadName(p, ReadName(p, 0).pos).pos);
    }
    HasPrefix(p, names);
    if IsParse(m) {
      HasPrefix(p, EncodeParse(m));
      HasSplit(p, 0, names, Put16(|m.oids|) + PutOids(m.oids));
    }
    if Has(p, 0, names) {
      HasLength(p, 0, names);
      ReadOidListExact(p, |names|, m.oids);
    }
  }
}
