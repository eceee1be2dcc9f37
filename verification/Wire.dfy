/** Numbers and message frames of internal/protocol/message.go, after section 55.7 of the
    PostgreSQL 16 documentation. */
module Wire {
  type byte = x: int | 0 <= x < 256
  type Bytes = seq<byte>

  /** p holds the bytes e at pos. */
  predicate Has(p: Bytes, pos: nat, e: Bytes) {
    pos + |e| <= |p| && forall k :: 0 <= k < |e| ==> e[k] == p[pos + k]
  }

  lemma HasSplit(p: Bytes, pos: nat, a: Bytes, b: Bytes)
    ensures Has(p, pos, a + b) <==> Has(p, pos, a) && Has(p, pos + |a|, b)
  {
    if Has(p, pos, a + b) {
      forall k | 0 <= k < |a| ensures a[k] == p[pos + k] {
        assert (a + b)[k] == a[k];
      }
      forall k | 0 <= k < |b| ensures b[k] == p[pos + |a| + k] {
        assert (a + b)[|a| + k] == b[k];
      }
    }
  }

  lemma HasPrefix(p: Bytes, e: Bytes)
    ensures Has(p, 0, e) <==> e <= p
  {}

  /** A reader's answer: what it read and where it stopped, or a complaint. */
  datatype Read<+T> = Fail | Got(value: T, pos: nat)

  // ---------------------------------------------------------------- numbers

  function Put16(n: nat): (e: Bytes)
    requires n < 0x1_0000
    ensures |e| == 2
  {
    [n / 256, n % 256]
  }

  function Get16(p: Bytes, pos: nat): (n: nat)
    requires pos + 2 <= |p|
    ensures n < 0x1_0000
  {
    var hi: int, lo: int := p[pos], p[pos + 1];
    256 * hi + lo
  }

  lemma Get16Exact(p: Bytes, pos: nat, n: nat)
    requires pos + 2 <= |p| && n < 0x1_0000
    ensures Get16(p, pos) == n <==> Has(p, pos, Put16(n))
  {
    var e := Put16(n);
    if Has(p, pos, e) {
      assert e[0] == p[pos + 0] && e[1] == p[pos + 1];
    }
    if Get16(p, pos) == n {
      assert e[0] == p[pos] && e[1] == p[pos + 1];
    }
  }

  function Put32(n: nat): (e: Bytes)
    requires n < 0x1_0000_0000
    ensures |e| == 4
  {
    Put16(n / 0x1_0000) + Put16(n % 0x1_0000)
  }

  function Get32(p: Bytes, pos: nat): (n: nat)
    requires pos + 4 <= |p|
    ensures n < 0x1_0000_0000
  {
    0x1_0000 * Get16(p, pos) + Get16(p, pos + 2)
  }

  lemma Get32Exact(p: Bytes, pos: nat, n: nat)
    requires pos + 4 <= |p| && n < 0x1_0000_0000
    ensures Get32(p, pos) == n <==> Has(p, pos, Put32(n))
  {
    hide Get16, Put16, Has;
    var hi, lo := n / 0x1_0000, n % 0x1_0000;
    HasSplit(p, pos, Put16(hi), Put16(lo));
    Get16Exact(p, pos, hi);
    Get16Exact(p, pos + 2, lo);
  }

  /** Numbers are written with the most significant byte first. */
  lemma BigEndian(n: nat)
    requires n < 0x1_0000_0000
    ensures Put32(n) == [n / 0x100_0000, n / 0x1_0000 % 256, n / 256 % 256, n % 256]
    ensures n < 0x1_0000 ==> Put16(n) == [n / 256, n % 256]
  {
    var hi, lo := n / 0x1_0000, n % 0x1_0000;
    assert hi / 256 == n / 0x100_0000;
    assert lo / 256 == n / 256 % 256 && lo % 256 == n % 256;
  }

  /** The two's complement reading of 16 bits. */
  function Signed16(n: nat): (i: int)
    requires n < 0x1_0000
    ensures IsInt16(i)
  {
    if n >= 0x8000 then n - 0x1_0000 else n
  }

  predicate IsInt16(i: int) {
    -0x8000 <= i < 0x8000
  }

  function Unsigned16(i: int): (n: nat)
    requires IsInt16(i)
    ensures n < 0x1_0000 && Signed16(n) == i
  {
    if i < 0 then i + 0x1_0000 else i
  }

  // ---------------------------------------------------------------- framing

  const MAX_MESSAGE_SIZE: int := 16 * 1024 * 1024

  /** A typed message. */
  datatype Message = Message(kind: byte, payload: Bytes)

  /** Type, length including itself, payload; the length field holds 32 bits and wraps around. */
  function Frame(m: Message): (e: Bytes)
    ensures |e| == 5 + |m.payload|
  {
    [m.kind] + (Put32((4 + |m.payload|) % 0x1_0000_0000) + m.payload)
  }

  /** The next message of a stream, of any size up to limit. */
  function ReadFrame(s: Bytes, pos: nat, limit: int): (r: Read<Message>)
    requires pos <= |s|
    ensures r.Got? ==> pos + 5 <= r.pos <= |s|
  {
    if pos + 5 > |s| then Fail
    else
      var length := Get32(s, pos + 1);
      if length < 4 || length - 4 > limit || pos + 1 + length > |s| then Fail
      else Got(Message(s[pos], s[pos + 5..pos + 1 + length]), pos + 1 + length)
  }

  /** Reading gives a message exactly when its frame is what comes next and fits the limit. */
  lemma ReadFrameExact(s: Bytes, pos: nat, limit: int, m: Message, e: nat)
    requires pos <= |s|
    ensures ReadFrame(s, pos, limit) == Got(m, e) <==>
              |m.payload| < 0x1_0000_0000 - 4 && |m.payload| <= limit && Has(s, pos, Frame(m)) && e == pos + |Frame(m)|
  {
    hide Get32, Put32;
    var n := |m.payload|;
    if n < 0x1_0000_0000 - 4 {
      FrameAt(s, pos, m);
      if pos + 5 <= |s| {
        Get32Exact(s, pos + 1, 4 + n);
        if pos + 5 + n <= |s| {
          SliceHas(s, pos + 5, m.payload);
        }
      }
    }
  }

  lemma FrameAt(s: Bytes, pos: nat, m: Message)
    requires |m.payload| < 0x1_0000_0000 - 4
    ensures Has(s, pos, Frame(m)) <==>
              pos < |s| && s[pos] == m.kind && Has(s, pos + 1, Put32(4 + |m.payload|)) && Has(s, pos + 5, m.payload)
  {
    hide Put32;
    var kind := [m.kind];
    HasSplit(s, pos, kind, Put32(4 + |m.payload|) + m.payload);
    HasSplit(s, pos + 1, Put32(4 + |m.payload|), m.payload);
    if Has(s, pos, kind) {
      assert kind[0] == s[pos + 0];
    }
  }

  lemma SliceHas(s: Bytes, pos: nat, e: Bytes)
    requires pos + |e| <= |s|
    ensures Has(s, pos, e) <==> s[pos..pos + |e|] == e
  {
    var t := s[pos..pos + |e|];
    if t == e {
      forall k | 0 <= k < |e| ensures e[k] == s[pos + k] {
        assert t[k] == e[k];
      }
    }
  }

  /** ReadMessage as a function of the stream. */
  function ReadMessageAt(s: Bytes, pos: nat): (r: Read<Message>)
    requires pos <= |s|
    ensures r.Got? ==> pos + 5 <= r.pos <= |s|
  {
    ReadFrame(s, pos, MAX_MESSAGE_SIZE)
  }

  /** ReadMessage takes payloads of up to sixteen megabytes. */
  lemma SixteenMegabytes(s: Bytes, pos: nat, m: Message, e: nat)
    requires pos <= |s| && Has(s, pos, Frame(m)) && e == pos + |Frame(m)|
    ensures ReadMessageAt(s, pos) == Got(m, e) <==> |m.payload| <= 16_777_216
  {
    ReadFrameExact(s, pos, MAX_MESSAGE_SIZE, m, e);
  }

  /** WriteMessage: the frame is assembled in one buffer. */
  method WriteMessage(m: Message) returns (buf: array<byte>)
    ensures fresh(buf) && buf[..] == Frame(m)
  {
    hide Put32;
    buf := new byte[5 + |m.payload|];
    buf[0] := m.kind;
    var length := Put32((4 + |m.payload|) % 0x1_0000_0000);
    forall i | 0 <= i < 4 {
      buf[1 + i] := length[i];
    }
    forall i | 0 <= i < |m.payload| {
      buf[5 + i] := m.payload[i];
    }
    var e := Frame(m);
    assert e[0] == m.kind;
    assert forall i :: 1 <= i < 5 ==> e[i] == length[i - 1];
    assert forall i :: 5 <= i < |e| ==> e[i] == m.payload[i - 5];
    assert forall i :: 0 <= i < buf.Length ==> buf[i] == e[i];
  }

  /** ReadMessageReuse: the message is read into the caller's buffer, or into a new one when that
      is too small. Whatever the buffer was and held, the answer is ReadMessage's. */
  method ReadMessageReuse(s: Bytes, pos: nat, buf: array<byte>) returns (r: Read<Message>, out: array<byte>)
    requires pos <= |s|
    modifies buf
    ensures r == ReadMessageAt(s, pos)
    ensures out == buf || fresh(out)
    ensures r.Got? ==>
              && out.Length >= r.pos - pos && out[..r.pos - pos] == s[pos..r.pos]
              && out[0] == r.value.kind && out[5..r.pos - pos] == r.value.payload
  {
    hide Get32;
    out := buf;
    if pos + 5 > |s| {
      return Fail, out;
    }
    var length := Get32(s, pos + 1);
    if length < 4 {
      return Fail, out;
    }
    var payloadLen := length - 4;
    if payloadLen > MAX_MESSAGE_SIZE {
      return Fail, out;
    }
    var wireLen := 5 + payloadLen;
    if buf.Length < wireLen {
      out := new byte[wireLen];
    }
    if pos + wireLen > |s| {
      return Fail, out;
    }
    forall i | 0 <= i < wireLen {
      out[i] := s[pos + i];
    }
    assert out[..wireLen] == s[pos..pos + wireLen];
    assert out[5..wireLen] == s[pos + 5..pos + wireLen];
    r := Got(Message(out[0], out[5..wireLen]), pos + wireLen);
  }

  // ---------------------------------------------------------------- message streams

  /** No message is so long that its length field wraps around. */
  predicate Framed(ms: seq<Message>) {
    forall i :: 0 <= i < |ms| ==> |ms[i].payload| < 0x1_0000_0000 - 4
  }

  /** The frames of the messages from i on, one after the other. */
  function Frames(ms: seq<Message>, i: nat): Bytes
    requires i <= |ms|
    decreases |ms| - i
  {
    if i == |ms| then [] else Frame(ms[i]) + Frames(ms, i + 1)
  }

  /** The messages read from a stream until one cannot be read. */
  function ReadAll(s: Bytes, pos: nat): seq<Message>
    requires pos <= |s|
    decreases |s| - pos
  {
    var r := ReadMessageAt(s, pos);
    if r.Fail? then [] else [r.value] + ReadAll(s, r.pos)
  }

  /** The messages from i on, up to the first that is over the limit. */
  function Readable(ms: seq<Message>, i: nat): seq<Message>
    requires i <= |ms|
    decreases |ms| - i
  {
    if i == |ms| || |ms[i].payload| > MAX_MESSAGE_SIZE then [] else [ms[i]] + Readable(ms, i + 1)
  }

  lemma {:induction false} ReadFrames(ms: seq<Message>, i: nat, s: Bytes, pos: nat)
    requires Framed(ms) && i <= |ms| && pos <= |s| && Has(s, pos, Frames(ms, i)) && pos + |Frames(ms, i)| == |s|
    ensures ReadAll(s, pos) == Readable(ms, i)
    decreases |ms| - i
  {
    hide ReadFrame, Frame, Has;
    if i == |ms| {
      ShortFails(s, pos);
    } else {
      var m := ms[i];
      HasSplit(s, pos, Frame(m), Frames(ms, i + 1));
      var e := pos + |Frame(m)|;
      ReadFrameExact(s, pos, MAX_MESSAGE_SIZE, m, e);
      if |m.payload| <= MAX_MESSAGE_SIZE {
        ReadFrames(ms, i + 1, s, e);
      } else {
        LargeFails(s, pos, m);
      }
    }
  }

  lemma ShortFails(s: Bytes, pos: nat)
    requires pos <= |s| && pos + 5 > |s|
    ensures ReadMessageAt(s, pos) == Fail
  {}

  lemma LargeFails(s: Bytes, pos: nat, m: Message)
    requires |m.payload| < 0x1_0000_0000 - 4 && |m.payload| > MAX_MESSAGE_SIZE
    requires pos <= |s| && Has(s, pos, Frame(m))
    ensures ReadMessageAt(s, pos) == Fail
  {
    hide Get32, Put32;
    FrameAt(s, pos, m);
    Get32Exact(s, pos + 1, 4 + |m.payload|);
  }

  /** Reading what was written returns the messages in order, up to the first that is over the
      size limit. */
  lemma WriteThenReadPrefix(ms: seq<Message>)
    requires Framed(ms)
    ensures ReadAll(Frames(ms, 0), 0) == Readable(ms, 0)
  {
    ReadFrames(ms, 0, Frames(ms, 0), 0);
  }

  /** Whatever was written, it reads back as it was if and only if no message is over the size
      limit. */
  lemma WriteThenRead(ms: seq<Message>)
    ensures ReadAll(Frames(ms, 0), 0) == ms <==> forall i :: 0 <= i < |ms| ==> |ms[i].payload| <= MAX_MESSAGE_SIZE
  {
    hide ReadAll, Readable, Frames;
    if forall i :: 0 <= i < |ms| ==> |ms[i].payload| <= MAX_MESSAGE_SIZE {
      WriteThenReadPrefix(ms);
      ReadableAll(ms, 0);
      assert ms[0..] == ms;
    }
    ReadFits(Frames(ms, 0), 0);
  }

  lemma {:induction false} ReadFits(s: Bytes, pos: nat)
    requires pos <= |s|
    ensures forall i :: 0 <= i < |ReadAll(s, pos)| ==> |ReadAll(s, pos)[i].payload| <= MAX_MESSAGE_SIZE
    decreases |s| - pos
  {
    hide Get32;
    var r := ReadMessageAt(s, pos);
    if r.Got? {
      ReadFits(s, r.pos);
    }
  }

  lemma {:induction false} ReadableAll(ms: seq<Message>, i: nat)
    requires i <= |ms|
    ensures |Readable(ms, i)| <= |ms| - i
    ensures (forall k :: i <= k < |ms| ==> |ms[k].payload| <= MAX_MESSAGE_SIZE) <==> |Readable(ms, i)| == |ms| - i
    ensures |Readable(ms, i)| == |ms| - i ==> Readable(ms, i) == ms[i..]
    decreases |ms| - i
  {
    if i < |ms| {
      ReadableAll(ms, i + 1);
    }
  }
}
