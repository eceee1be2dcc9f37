/** The decoding loops of internal/protocol/message.go, proved against the readers of Codec. */
module CodecLoops {
  import opened Wrappers
  import opened Wire
  import opened Codec

  /** Items already read in front of those still to come. */
  function Glue<T>(done: seq<T>, rest: Read<seq<T>>): Read<seq<T>> {
    if rest.Fail? then Fail else Got(done + rest.value, rest.pos)
  }

  lemma GlueCons<T>(done: seq<T>, x: T, rest: Read<seq<T>>)
    ensures Glue(done, Cons(x, rest)) == Glue(done + [x], rest)
  {
    if rest.Got? {
      assert done + ([x] + rest.value) == (done + [x]) + rest.value;
    }
  }

  lemma GlueNothing<T>(rest: Read<seq<T>>, done: seq<T>, pos: nat)
    ensures Glue([], rest) == rest && Glue(done, Got([], pos)) == Got(done, pos)
  {
    assert done + [] == done;
    if rest.Got? {
      assert [] + rest.value == rest.value;
    }
  }

  /** indexOf(payload[pos:], 0). */
  method IndexZero(payload: Bytes, pos: nat) returns (z: int)
    requires pos <= |payload|
    ensures z == ZeroFrom(payload, pos)
  {
    z := pos;
    while z < |payload|
      invariant pos <= z <= |payload| && ZeroFrom(payload, z) == ZeroFrom(payload, pos)
    {
      if payload[z] == 0 {
        return;
      }
      z := z + 1;
    }
    z := -1;
  }

  method ParseName(payload: Bytes, pos: nat) returns (r: Read<Bytes>)
    requires pos <= |payload|
    ensures r == ReadName(payload, pos)
  {
    var end := IndexZero(payload, pos);
    if end < 0 {
      return Fail;
    }
    return Got(payload[pos..end], end + 1);
  }

  /** A count and that many format codes. */
  method ParseCodes(payload: Bytes, start: nat) returns (r: Read<seq<int>>)
    requires start <= |payload|
    ensures r == ReadCodeList(payload, start)
  {
    hide Get16;
    var pos := start;
    if pos + 2 > |payload| {
      return Fail;
    }
    var n := Get16(payload, pos);
    pos := pos + 2;
    var codes: seq<int> := [];
    GlueNothing(ReadCodes(payload, pos, n), codes, pos);
    for i := 0 to n
      invariant 0 <= pos <= |payload|
      invariant Glue(codes, ReadCodes(payload, pos, n - i)) == ReadCodes(payload, start + 2, n)
    {
      if pos + 2 > |payload| {
        return Fail;
      }
      GlueCons(codes, Signed16(Get16(payload, pos)), ReadCodes(payload, pos + 2, n - i - 1));
      codes := codes + [Signed16(Get16(payload, pos))];
      pos := pos + 2;
    }
    GlueNothing(Fail, codes, pos);
    return Got(codes, pos);
  }

  /** One parameter value: a signed length, then the bytes. */
  method ParseParam(payload: Bytes, start: nat) returns (r: Read<Option<Bytes>>)
    requires start <= |payload|
    ensures r == ReadParam(payload, start)
  {
    hide Get32;
    var pos := start;
    if pos + 4 > |payload| {
      return Fail;
    }
    var bits := Get32(payload, pos);
    var paramLen: int := if bits >= 0x8000_0000 then bits as int - 0x1_0000_0000 else bits;
    pos := pos + 4;
    if paramLen == -1 {
      return Got(None, pos);
    }
    if paramLen < 0 || pos + paramLen > |payload| {
      return Fail;
    }
    return Got(Some(payload[pos..pos + paramLen]), pos + paramLen);
  }

  /** A count and that many parameter values. */
  method ParseParams(payload: Bytes, start: nat) returns (r: Read<seq<Option<Bytes>>>)
    requires start <= |payload|
    ensures r == ReadParamList(payload, start)
  {
    hide Get16, ReadParam;
    var pos := start;
    if pos + 2 > |payload| {
      return Fail;
    }
    var n := Get16(payload, pos);
    pos := pos + 2;
    var params: seq<Option<Bytes>> := [];
    GlueNothing(ReadParams(payload, pos, n), params, pos);
    for i := 0 to n
      invariant 0 <= pos <= |payload|
      invariant Glue(params, ReadParams(payload, pos, n - i)) == ReadParams(payload, start + 2, n)
    {
      var x := ParseParam(payload, pos);
      if x.Fail? {
        return Fail;
      }
      GlueCons(params, x.value, ReadParams(payload, x.pos, n - i - 1));
      params := params + [x.value];
      pos := x.pos;
    }
    GlueNothing(Fail, params, pos);
    return Got(params, pos);
  }

  /** ParseBindMessageFull. */
  method ParseBindMessageFull(payload: Bytes) returns (r: Result<Bind>)
    ensures r == DecodeBind(payload)
  {
    hide ReadName, ReadCodeList, ReadParamList;
    var portal := ParseName(payload, 0);
    if portal.Fail? {
      return Err;
    }
    var statement := ParseName(payload, portal.pos);
    if statement.Fail? {
      return Err;
    }
    var formats := ParseCodes(payload, statement.pos);
    if formats.Fail? {
      return Err;
    }
    var params := ParseParams(payload, formats.pos);
    if params.Fail? {
      return Err;
    }
    var results := ParseCodes(payload, params.pos);
    if results.Fail? {
      return Err;
    }
    return Ok(Bind(portal.value, statement.value, formats.value, params.value, results.value));
  }

  /** As many whole parameter types as there are, n at most. */
  function SomeOids(p: Bytes, pos: nat, n: nat): seq<nat>
    requires pos <= |p|
    decreases n
  {
    if n == 0 || pos + 4 > |p| then [] else [Get32(p, pos)] + SomeOids(p, pos + 4, n - 1)
  }

  /** What the parser has read when it stops, with or without an error. */
  function Gathered(p: Bytes): Parse {
    var name := ReadName(p, 0);
    if name.Fail? then Parse([], [], [])
    else
      var query := ReadName(p, name.pos);
      if query.Fail? then Parse(name.value, [], [])
      else if query.pos + 2 > |p| then Parse(name.value, query.value, [])
      else Parse(name.value, query.value, SomeOids(p, query.pos + 2, Get16(p, query.pos)))
  }

  lemma {:induction false} SomeOrAll(p: Bytes, pos: nat, n: nat)
    requires pos <= |p|
    ensures |SomeOids(p, pos, n)| <= n
    ensures ReadOids(p, pos, n).Got? ==> SomeOids(p, pos, n) == ReadOids(p, pos, n).value
    ensures ReadOids(p, pos, n).Got? <==> |SomeOids(p, pos, n)| == n
    decreases n
  {
    hide Get32;
    if n > 0 && pos + 4 <= |p| {
      SomeOrAll(p, pos + 4, n - 1);
    }
  }

  /** On success what was gathered is the decoded message. */
  lemma GatheredIsDecoded(p: Bytes)
    ensures DecodeParse(p).Ok? ==> DecodeParse(p) == Ok(Gathered(p))
  {
    hide ReadName, Get16, ReadOids, SomeOids;
    var name := ReadName(p, 0);
    if name.Got? && ReadName(p, name.pos).Got? {
      var pos := ReadName(p, name.pos).pos;
      if pos + 2 <= |p| {
        SomeOrAll(p, pos + 2, Get16(p, pos));
      }
    }
  }

  /** ParseParseMessageFull: next to an error it returns what it has gathered, which a caller goes on
      to use. */
  method ParseParseMessageFull(payload: Bytes) returns (stmtName: Bytes, query: Bytes, paramOIDs: seq<nat>, ok: bool)
    ensures Parse(stmtName, query, paramOIDs) == Gathered(payload)
    ensures ok == DecodeParse(payload).Ok?
    ensures ok ==> DecodeParse(payload) == Ok(Parse(stmtName, query, paramOIDs))
  {
    hide ReadName, Get16, ReadOids, SomeOids;
    GatheredIsDecoded(payload);
    stmtName, query, paramOIDs, ok := [], [], [], false;
    var first := ParseName(payload, 0);
    if first.Fail? {
      return;
    }
    stmtName := first.value;
    var second := ParseName(payload, first.pos);
    if second.Fail? {
      return;
    }
    query := second.value;
    if |payload| - second.pos < 2 {
      ok := true;
      return;
    }
    SomeOrAll(payload, second.pos + 2, Get16(payload, second.pos));
    paramOIDs, ok := ParseOids(payload, second.pos + 2, Get16(payload, second.pos));
  }

  /** The loop over the parameter types. */
  method ParseOids(payload: Bytes, start: nat, n: nat) returns (oids: seq<nat>, ok: bool)
    requires start <= |payload|
    ensures oids == SomeOids(payload, start, n) && ok == (|oids| == n)
  {
    hide Get32;
    oids := [];
    var pos := start;
    for i := 0 to n
      invariant 0 <= pos <= |payload| && |oids| == i
      invariant oids + SomeOids(payload, pos, n - i) == SomeOids(payload, start, n)
    {
      if |payload| - pos < 4 {
        return oids, false;
      }
      assert oids + ([Get32(payload, pos)] + SomeOids(payload, pos + 4, n - i - 1))
          == (oids + [Get32(payload, pos)]) + SomeOids(payload, pos + 4, n - i - 1);
      oids := oids + [Get32(payload, pos)];
      pos := pos + 4;
    }
    return oids, true;
  }

  // ---------------------------------------------------------------- the short parsers

  /** ParseParseMessage and ParseBindMessage both take the first two strings of a payload, with
      nothing for those that are not there. They return what the full parsers return wherever
      these accept. */
  method ParseShort(payload: Bytes) returns (first: Bytes, second: Bytes)
    ensures DecodeParse(payload).Ok? ==>
              first == DecodeParse(payload).value.name && second == DecodeParse(payload).value.query
    ensures DecodeBind(payload).Ok? ==>
              first == DecodeBind(payload).value.portal && second == DecodeBind(payload).value.statement
    ensures ZeroFrom(payload, 0) < 0 ==> first == [] && second == []
    ensures ZeroFrom(payload, 0) >= 0 ==>
              var z1 := ZeroFrom(payload, 0);
              var z2 := ZeroFrom(payload, z1 + 1);
              first == payload[..z1] && second == if z2 < 0 then [] else payload[z1 + 1..z2]
  {
    hide ZeroFrom, ReadCodeList, ReadParamList, ReadOidList;
    first, second := [], [];
    var end := IndexZero(payload, 0);
    if end < 0 {
      return;
    }
    first := payload[..end];
    var next := IndexZero(payload, end + 1);
    if next < 0 {
      return;
    }
    second := payload[end + 1..next];
  }
}
