/** The response relays of internal/proxy/copy.go as transducers: bytes from the backend and, during
    COPY, from the client are read message by message and passed on. */
module Relay {
  import opened Wrappers
  import opened Wire

  const READY: byte := 'Z' as int
  const COPY_IN: byte := 'G' as int
  const COPY_OUT: byte := 'H' as int
  const COPY_BOTH: byte := 'W' as int
  const COPY_DATA: byte := 'd' as int

  /** Larger than any length a message can state. */
  const NO_LIMIT: int := 0x1_0000_0000

  /** How a relay ends: at ReadyForQuery, on an error, or by giving way to streaming replication. */
  datatype End = Ready | Failed | Both

  /** What was sent each way, and how far the backend's and the client's bytes were read. */
  datatype Out = Out(end: End, toClient: Bytes, toBackend: Bytes, b: nat, c: nat)

  function Prepend(client: Bytes, backend: Bytes, o: Out): Out {
    o.(toClient := client + o.toClient, toBackend := backend + o.toBackend)
  }

  lemma PrependTwice(c1: Bytes, b1: Bytes, c2: Bytes, b2: Bytes, o: Out)
    ensures Prepend(c1, b1, Prepend(c2, b2, o)) == Prepend(c1 + c2, b1 + b2, o)
    ensures Prepend([], [], o) == o
  {
    assert c1 + (c2 + o.toClient) == c1 + c2 + o.toClient;
    assert b1 + (b2 + o.toBackend) == b1 + b2 + o.toBackend;
    assert [] + o.toClient == o.toClient && [] + o.toBackend == o.toBackend;
  }

  // ---------------------------------------------------------------- COPY

  datatype Copied = Copied(ok: bool, sent: Bytes, pos: nat)

  /** relayCopyIn and relayCopyOut: messages are passed on while they are CopyData, and so is the
      first that is not. */
  function Copy(s: Bytes, pos: nat): (r: Copied)
    requires pos <= |s|
    ensures pos <= r.pos <= |s| && r.sent == s[pos..r.pos]
    decreases |s| - pos
  {
    var m := ReadMessageAt(s, pos);
    if m.Fail? then Copied(false, [], pos)
    else if m.value.kind != COPY_DATA then Copied(true, s[pos..m.pos], m.pos)
    else
      var rest := Copy(s, m.pos);
      assert s[pos..m.pos] + s[m.pos..rest.pos] == s[pos..rest.pos];
      rest.(sent := s[pos..m.pos] + rest.sent)
  }

  method RelayCopy(s: Bytes, start: nat) returns (ok: bool, sent: Bytes, pos: nat)
    requires start <= |s|
    ensures Copied(ok, sent, pos) == Copy(s, start)
  {
    hide ReadFrame;
    pos, sent := start, [];
    while true
      invariant start <= pos <= |s|
      invariant var rest := Copy(s, pos); rest.(sent := sent + rest.sent) == Copy(s, start)
      decreases |s| - pos
    {
      var m := ReadMessageAt(s, pos);
      if m.Fail? {
        assert sent + [] == sent;
        return false, sent, pos;
      }
      ghost var rest := Copy(s, m.pos);
      var frame := s[pos..m.pos];
      if m.value.kind != COPY_DATA {
        return true, sent + frame, m.pos;
      }
      assert sent + (frame + rest.sent) == (sent + frame) + rest.sent;
      sent := sent + frame;
      pos := m.pos;
    }
  }

  // ---------------------------------------------------------------- relayUntilReady

  /** Relaying messages of at most limit bytes of payload until ReadyForQuery. */
  function Relayed(bs: Bytes, cs: Bytes, b: nat, c: nat, limit: int): Out
    requires b <= |bs| && c <= |cs|
    decreases |bs| - b
  {
    var m := ReadFrame(bs, b, limit);
    if m.Fail? then Out(Failed, [], [], b, c)
    else
      var frame, kind := bs[b..m.pos], m.value.kind;
      if kind == READY then Out(Ready, frame, [], m.pos, c)
      else if kind == COPY_BOTH then Out(Both, frame, [], m.pos, c)
      else if kind == COPY_IN then
        var k := Copy(cs, c);
        if !k.ok then Out(Failed, frame, k.sent, m.pos, k.pos)
        else Prepend(frame, k.sent, Relayed(bs, cs, m.pos, k.pos, limit))
      else if kind == COPY_OUT then
        var k := Copy(bs, m.pos);
        if !k.ok then Out(Failed, frame + k.sent, [], k.pos, c)
        else Prepend(frame + k.sent, [], Relayed(bs, cs, k.pos, c, limit))
      else Prepend(frame, [], Relayed(bs, cs, m.pos, c, limit))
  }

  method RelayUntilReady(bs: Bytes, cs: Bytes, b0: nat, c0: nat) returns (out: Out)
    requires b0 <= |bs| && c0 <= |cs|
    ensures out == Relayed(bs, cs, b0, c0, NO_LIMIT)
  {
    hide ReadFrame, Copy;
    var b, c, client, backend := b0, c0, [], [];
    PrependTwice([], [], [], [], Relayed(bs, cs, b, c, NO_LIMIT));
    while true
      invariant b0 <= b <= |bs| && c0 <= c <= |cs|
      invariant Prepend(client, backend, Relayed(bs, cs, b, c, NO_LIMIT)) == Relayed(bs, cs, b0, c0, NO_LIMIT)
      decreases |bs| - b
    {
      ghost var here := Relayed(bs, cs, b, c, NO_LIMIT);
      var m := ReadFrame(bs, b, NO_LIMIT);
      if m.Fail? {
        return Prepend(client, backend, Out(Failed, [], [], b, c));
      }
      var frame := bs[b..m.pos];
      var kind := m.value.kind;
      if kind == READY {
        return Prepend(client, backend, Out(Ready, frame, [], m.pos, c));
      }
      if kind == COPY_BOTH {
        return Prepend(client, backend, Out(Both, frame, [], m.pos, c));
      }
      var up: Bytes := [];
      b := m.pos;
      if kind == COPY_IN {
        var ok, sent, pos := RelayCopy(cs, c);
        if !ok {
          return Prepend(client, backend, Out(Failed, frame, sent, b, pos));
        }
        up, c := sent, pos;
      } else if kind == COPY_OUT {
        var ok, sent, pos := RelayCopy(bs, b);
        if !ok {
          return Prepend(client, backend, Out(Failed, frame + sent, [], pos, c));
        }
        frame, b := frame + sent, pos;
      }
      assert here == Prepend(frame, up, Relayed(bs, cs, b, c, NO_LIMIT));
      PrependTwice(client, backend, frame, up, Relayed(bs, cs, b, c, NO_LIMIT));
      client, backend := client + frame, backend + up;
    }
  }

  // ---------------------------------------------------------------- relayAndCollect

  /** The buffer after one more message: given up, for good, once it is over the limit. */
  function Grown(acc: Option<Bytes>, frame: Bytes, max: int): Option<Bytes> {
    if acc.None? || (max > 0 && |acc.value + frame| > max) then None else Some(acc.value + frame)
  }

  /** The buffer relayAndCollect returns. */
  function Collected(bs: Bytes, cs: Bytes, b: nat, c: nat, max: int, acc: Option<Bytes>): Option<Bytes>
    requires b <= |bs| && c <= |cs|
    decreases |bs| - b
  {
    var m := ReadMessageAt(bs, b);
    if m.Fail? then None
    else
      var kind := m.value.kind;
      var acc' := Grown(acc, bs[b..m.pos], max);
      if kind == READY then acc'
      else if kind == COPY_BOTH then None
      else if kind == COPY_IN then
        var k := Copy(cs, c);
        if k.ok then Collected(bs, cs, m.pos, k.pos, max, None) else None
      else if kind == COPY_OUT then
        var k := Copy(bs, m.pos);
        if k.ok then Collected(bs, cs, k.pos, c, max, None) else None
      else Collected(bs, cs, m.pos, c, max, acc')
  }

  /** Both results of relayAndCollect: the relay under the size limit of ReadMessage, and the buffer. */
  method RelayAndCollect(bs: Bytes, cs: Bytes, b0: nat, c0: nat, max: int) returns (out: Out, result: Option<Bytes>)
    requires b0 <= |bs| && c0 <= |cs|
    ensures out == Relayed(bs, cs, b0, c0, MAX_MESSAGE_SIZE)
    ensures result == Collected(bs, cs, b0, c0, max, Some([]))
  {
    hide ReadFrame, Copy;
    var b, c, client, backend := b0, c0, [], [];
    var buf: Bytes, oversize := [], false;
    PrependTwice([], [], [], [], Relayed(bs, cs, b, c, MAX_MESSAGE_SIZE));
    while true
      invariant b0 <= b <= |bs| && c0 <= c <= |cs|
      invariant Prepend(client, backend, Relayed(bs, cs, b, c, MAX_MESSAGE_SIZE))
             == Relayed(bs, cs, b0, c0, MAX_MESSAGE_SIZE)
      invariant Collected(bs, cs, b, c, max, Kept(buf, oversize)) == Collected(bs, cs, b0, c0, max, Some([]))
      decreases |bs| - b
    {
      ghost var here := Relayed(bs, cs, b, c, MAX_MESSAGE_SIZE);
      var m := ReadFrame(bs, b, MAX_MESSAGE_SIZE);
      if m.Fail? {
        return Prepend(client, backend, Out(Failed, [], [], b, c)), None;
      }
      var frame := bs[b..m.pos];
      ghost var grown := Grown(Kept(buf, oversize), frame, max);
      if !oversize {
        buf := buf + frame;
        if max > 0 && |buf| > max {
          buf, oversize := [], true;
        }
      }
      assert Kept(buf, oversize) == grown;
      var kind := m.value.kind;
      if kind == READY {
        out := Prepend(client, backend, Out(Ready, frame, [], m.pos, c));
        return out, if oversize then None else Some(buf);
      }
      if kind == COPY_BOTH {
        return Prepend(client, backend, Out(Both, frame, [], m.pos, c)), None;
      }
      var up: Bytes := [];
      b := m.pos;
      if kind == COPY_IN {
        var ok, sent, pos := RelayCopy(cs, c);
        if !ok {
          return Prepend(client, backend, Out(Failed, frame, sent, b, pos)), None;
        }
        up, c := sent, pos;
        buf, oversize := [], true;
      } else if kind == COPY_OUT {
        var ok, sent, pos := RelayCopy(bs, b);
        if !ok {
          return Prepend(client, backend, Out(Failed, frame + sent, [], pos, c)), None;
        }
        frame, b := frame + sent, pos;
        buf, oversize := [], true;
      }
      assert here == Prepend(frame, up, Relayed(bs, cs, b, c, MAX_MESSAGE_SIZE));
      PrependTwice(client, backend, frame, up, Relayed(bs, cs, b, c, MAX_MESSAGE_SIZE));
      client, backend := client + frame, backend + up;
    }
  }

  function Kept(buf: Bytes, oversize: bool): Option<Bytes> {
    if oversize then None else Some(buf)
  }

  // ---------------------------------------------------------------- what is collected

  /** No COPY message comes up to ReadyForQuery. */
  predicate CopyFree(bs: Bytes, b: nat)
    requires b <= |bs|
    decreases |bs| - b
  {
    var m := ReadMessageAt(bs, b);
    m.Got? && m.value.kind != READY ==> m.value.kind !in {COPY_IN, COPY_OUT, COPY_BOTH} && CopyFree(bs, m.pos)
  }

  lemma {:induction false} GivenUp(bs: Bytes, cs: Bytes, b: nat, c: nat, max: int)
    requires b <= |bs| && c <= |cs|
    ensures Collected(bs, cs, b, c, max, None) == None
    decreases |bs| - b
  {
    hide ReadFrame, Copy;
    var m := ReadMessageAt(bs, b);
    if m.Got? {
      var kind := m.value.kind;
      if kind == COPY_IN {
        GivenUp(bs, cs, m.pos, Copy(cs, c).pos, max);
      } else if kind == COPY_OUT {
        GivenUp(bs, cs, Copy(bs, m.pos).pos, c, max);
      } else {
        GivenUp(bs, cs, m.pos, c, max);
      }
    }
  }

  lemma {:induction false} CollectFrom(bs: Bytes, cs: Bytes, b: nat, c: nat, max: int, acc: Bytes)
    requires b <= |bs| && c <= |cs| && (max > 0 ==> |acc| <= max)
    ensures var o := Relayed(bs, cs, b, c, MAX_MESSAGE_SIZE);
            Collected(bs, cs, b, c, max, Some(acc)) ==
              if o.end.Ready? && CopyFree(bs, b) && (max > 0 ==> |acc| + |o.toClient| <= max)
              then Some(acc + o.toClient) else None
    decreases |bs| - b
  {
    hide ReadFrame, Copy;
    var m := ReadMessageAt(bs, b);
    if m.Got? {
      var kind, frame := m.value.kind, bs[b..m.pos];
      if kind == COPY_IN {
        GivenUp(bs, cs, m.pos, Copy(cs, c).pos, max);
      } else if kind == COPY_OUT {
        GivenUp(bs, cs, Copy(bs, m.pos).pos, c, max);
      } else if kind != READY && kind != COPY_BOTH {
        var rest := Relayed(bs, cs, m.pos, c, MAX_MESSAGE_SIZE);
        if max > 0 && |acc + frame| > max {
          GivenUp(bs, cs, m.pos, c, max);
        } else {
          CollectFrom(bs, cs, m.pos, c, max, acc + frame);
          assert (acc + frame) + rest.toClient == acc + (frame + rest.toClient);
        }
      }
    }
  }

  /** A buffer is returned exactly when the relay reaches ReadyForQuery without COPY and within the
      size limit, and it is exactly the bytes sent to the client. */
  lemma CollectExact(bs: Bytes, cs: Bytes, b: nat, c: nat, max: int)
    requires b <= |bs| && c <= |cs|
    ensures var o := Relayed(bs, cs, b, c, MAX_MESSAGE_SIZE);
            Collected(bs, cs, b, c, max, Some([])) ==
              if o.end.Ready? && CopyFree(bs, b) && (max > 0 ==> |o.toClient| <= max) then Some(o.toClient) else None
  {
    CollectFrom(bs, cs, b, c, max, []);
    var o := Relayed(bs, cs, b, c, MAX_MESSAGE_SIZE);
    assert [] + o.toClient == o.toClient;
  }

  /** Without COPY, what the client gets is a stretch of the backend's bytes that ends with the
      first ReadyForQuery, and nothing goes to the backend. */
  lemma {:induction false} CopyFreeIsStretch(bs: Bytes, cs: Bytes, b: nat, c: nat)
    requires b <= |bs| && c <= |cs| && CopyFree(bs, b)
    ensures var o := Relayed(bs, cs, b, c, MAX_MESSAGE_SIZE);
            b <= o.b <= |bs| && o.toClient == bs[b..o.b] && o.toBackend == [] && o.c == c && !o.end.Both?
    decreases |bs| - b
  {
    hide ReadFrame, Copy;
    var m := ReadMessageAt(bs, b);
    if m.Got? && m.value.kind != READY {
      CopyFreeIsStretch(bs, cs, m.pos, c);
      var o := Relayed(bs, cs, m.pos, c, MAX_MESSAGE_SIZE);
      assert bs[b..m.pos] + bs[m.pos..o.b] == bs[b..o.b];
    }
  }

  // ---------------------------------------------------------------- the two relays compared

  /** No whole message that relayUntilReady passes on is over the limit of ReadMessage. */
  predicate Fits(bs: Bytes, cs: Bytes, b: nat, c: nat)
    requires b <= |bs| && c <= |cs|
    decreases |bs| - b
  {
    var m := ReadFrame(bs, b, NO_LIMIT);
    if m.Fail? then true
    else
      var kind := m.value.kind;
      && |m.value.payload| <= MAX_MESSAGE_SIZE
      && (if kind == READY || kind == COPY_BOTH then true
          else if kind == COPY_IN then Copy(cs, c).ok ==> Fits(bs, cs, m.pos, Copy(cs, c).pos)
          else if kind == COPY_OUT then Copy(bs, m.pos).ok ==> Fits(bs, cs, Copy(bs, m.pos).pos, c)
          else Fits(bs, cs, m.pos, c))
  }

  lemma LimitOnly(s: Bytes, pos: nat)
    requires pos <= |s|
    ensures var m := ReadFrame(s, pos, NO_LIMIT);
            ReadFrame(s, pos, MAX_MESSAGE_SIZE) ==
              if m.Got? && |m.value.payload| > MAX_MESSAGE_SIZE then Fail else m
  {
    hide Get32;
  }

  ghost predicate Behind(o: Out, plain: Out) {
    o.end.Failed? && |o.toClient| < |plain.toClient| && o.toClient <= plain.toClient
  }

  lemma PrependBehind(client: Bytes, backend: Bytes, o: Out, plain: Out)
    requires Behind(o, plain)
    ensures Behind(Prepend(client, backend, o), Prepend(client, backend, plain))
  {
    assert plain.toClient == o.toClient + plain.toClient[|o.toClient|..];
    assert client + plain.toClient == (client + o.toClient) + plain.toClient[|o.toClient|..];
  }

  /** The collecting relay sends what relayUntilReady sends if and only if no message is over the
      limit of ReadMessage; otherwise it stops with an error in front of the first that is. */
  lemma {:induction false} SameForClient(bs: Bytes, cs: Bytes, b: nat, c: nat)
    requires b <= |bs| && c <= |cs|
    ensures var o, plain := Relayed(bs, cs, b, c, MAX_MESSAGE_SIZE), Relayed(bs, cs, b, c, NO_LIMIT);
            if Fits(bs, cs, b, c) then o == plain else Behind(o, plain)
    decreases |bs| - b
  {
    hide ReadFrame, Copy, Behind;
    LimitOnly(bs, b);
    var m := ReadFrame(bs, b, NO_LIMIT);
    if m.Got? {
      var kind, frame := m.value.kind, bs[b..m.pos];
      if |m.value.payload| > MAX_MESSAGE_SIZE {
        StopsBehind(bs, cs, b, c);
      } else if kind == COPY_IN {
        var k := Copy(cs, c);
        if k.ok {
          SameForClient(bs, cs, m.pos, k.pos);
          SameStep(bs, cs, m.pos, k.pos, frame, k.sent);
        }
      } else if kind == COPY_OUT {
        var k := Copy(bs, m.pos);
        if k.ok {
          SameForClient(bs, cs, k.pos, c);
          SameStep(bs, cs, k.pos, c, frame + k.sent, []);
        }
      } else if kind != READY && kind != COPY_BOTH {
        SameForClient(bs, cs, m.pos, c);
        SameStep(bs, cs, m.pos, c, frame, []);
      }
    }
  }

  lemma SameStep(bs: Bytes, cs: Bytes, b: nat, c: nat, client: Bytes, backend: Bytes)
    requires b <= |bs| && c <= |cs|
    ensures var o, plain := Relayed(bs, cs, b, c, MAX_MESSAGE_SIZE), Relayed(bs, cs, b, c, NO_LIMIT);
            Behind(o, plain) ==> Behind(Prepend(client, backend, o), Prepend(client, backend, plain))
  {
    hide Relayed, Behind;
    var o, plain := Relayed(bs, cs, b, c, MAX_MESSAGE_SIZE), Relayed(bs, cs, b, c, NO_LIMIT);
    if Behind(o, plain) {
      PrependBehind(client, backend, o, plain);
    }
  }

  lemma StopsBehind(bs: Bytes, cs: Bytes, b: nat, c: nat)
    requires b <= |bs| && c <= |cs|
    requires ReadFrame(bs, b, NO_LIMIT).Got? && ReadFrame(bs, b, MAX_MESSAGE_SIZE).Fail?
    ensures Behind(Relayed(bs, cs, b, c, MAX_MESSAGE_SIZE), Relayed(bs, cs, b, c, NO_LIMIT))
  {
    hide Copy, Get32;
  }

  // ---------------------------------------------------------------- who gets what

  /** Over every exchange, COPY included: the client gets exactly the bytes read from the backend, and the
      backend exactly those read from the client, in order and nothing else. */
  lemma {:induction false} RelayConserves(bs: Bytes, cs: Bytes, b: nat, c: nat, limit: int)
    requires b <= |bs| && c <= |cs|
    ensures var o := Relayed(bs, cs, b, c, limit);
            b <= o.b <= |bs| && c <= o.c <= |cs| && o.toClient == bs[b..o.b] && o.toBackend == cs[c..o.c]
    decreases |bs| - b
  {
    hide ReadFrame, Copy;
    var m := ReadFrame(bs, b, limit);
    if m.Got? && m.value.kind != READY && m.value.kind != COPY_BOTH {
      var b', c' := m.pos, c;
      if m.value.kind == COPY_IN {
        c' := Copy(cs, c).pos;
      } else if m.value.kind == COPY_OUT {
        b' := Copy(bs, m.pos).pos;
        SliceTwice(bs, b, m.pos, b');
      }
      RelayConserves(bs, cs, b', c', limit);
      var o := Relayed(bs, cs, b', c', limit);
      SliceTwice(bs, b, b', o.b);
      SliceTwice(cs, c, c', o.c);
    }
  }

  lemma SliceTwice(s: Bytes, a: nat, b: nat, c: nat)
    requires a <= b <= c <= |s|
    ensures s[a..b] + s[b..c] == s[a..c]
  {}

  /** From pos to mid there are whole CopyData messages, and nothing else. */
  predicate AllData(s: Bytes, pos: nat, mid: nat)
    requires pos <= |s|
    decreases |s| - pos
  {
    pos == mid ||
    var m := ReadMessageAt(s, pos);
    m.Got? && m.value.kind == 'd' as int && AllData(s, m.pos, mid)
  }

  /** A COPY stream from pos to e: CopyData messages, then one message of another type. */
  ghost predicate CopyStream(s: Bytes, pos: nat, e: nat)
    requires pos <= |s|
  {
    exists mid: nat :: && pos <= mid <= |s| && AllData(s, pos, mid) && ReadMessageAt(s, mid).Got?
                       && ReadMessageAt(s, mid).value.kind != 'd' as int && ReadMessageAt(s, mid).pos == e
  }

  /** The COPY relays pass on exactly one COPY stream, and fail when there is none. */
  lemma {:induction false} CopyExact(s: Bytes, pos: nat)
    requires pos <= |s|
    ensures forall e: nat :: CopyStream(s, pos, e) <==> Copy(s, pos).ok && e == Copy(s, pos).pos
    decreases |s| - pos
  {
    hide ReadFrame, Copy;
    CopyUnfold(s, pos);
    var m := ReadMessageAt(s, pos);
    if m.Got? && m.value.kind == 'd' as int {
      CopyExact(s, m.pos);
      forall e: nat ensures CopyStream(s, pos, e) <==> CopyStream(s, m.pos, e) {
        StreamBehind(s, pos, e);
      }
    } else if m.Got? {
      assert AllData(s, pos, pos);
      assert CopyStream(s, pos, m.pos);
    }
  }

  lemma CopyUnfold(s: Bytes, pos: nat)
    requires pos <= |s|
    ensures var m, r := ReadMessageAt(s, pos), Copy(s, pos);
            && (m.Fail? ==> !r.ok)
            && (m.Got? && m.value.kind != 'd' as int ==> r.ok && r.pos == m.pos)
            && (m.Got? && m.value.kind == 'd' as int ==> r.ok == Copy(s, m.pos).ok && r.pos == Copy(s, m.pos).pos)
  {
    hide ReadFrame;
  }

  lemma StreamBehind(s: Bytes, pos: nat, e: nat)
    requires pos <= |s| && ReadMessageAt(s, pos).Got? && ReadMessageAt(s, pos).value.kind == 'd' as int
    ensures CopyStream(s, pos, e) <==> CopyStream(s, ReadMessageAt(s, pos).pos, e)
  {
    hide ReadFrame;
    var next := ReadMessageAt(s, pos).pos;
    if CopyStream(s, pos, e) {
      var mid: nat :| && pos <= mid <= |s| && AllData(s, pos, mid) && ReadMessageAt(s, mid).Got?
                      && ReadMessageAt(s, mid).value.kind != 'd' as int && ReadMessageAt(s, mid).pos == e;
      assert AllData(s, next, mid);
      DataForward(s, next, mid);
    }
    if CopyStream(s, next, e) {
      var mid: nat :| && next <= mid <= |s| && AllData(s, next, mid) && ReadMessageAt(s, mid).Got?
                      && ReadMessageAt(s, mid).value.kind != 'd' as int && ReadMessageAt(s, mid).pos == e;
      assert AllData(s, pos, mid);
    }
  }

  lemma {:induction false} DataForward(s: Bytes, pos: nat, mid: nat)
    requires pos <= |s| && AllData(s, pos, mid)
    ensures pos <= mid
    decreases |s| - pos
  {
    hide ReadFrame;
    if pos != mid {
      DataForward(s, ReadMessageAt(s, pos).pos, mid);
    }
  }

  /** Whose turn it is: after a CopyInResponse a COPY stream of the client goes to the backend, after a
      CopyOutResponse one of the backend goes to the client, and only then is the backend's next
      response read; any other message but ReadyForQuery and CopyBothResponse is just passed on. */
  lemma RelayTurns(bs: Bytes, cs: Bytes, b: nat, c: nat, limit: int, e: nat)
    requires b <= |bs| && c <= |cs| && ReadFrame(bs, b, limit).Got?
    ensures var m, o := ReadFrame(bs, b, limit), Relayed(bs, cs, b, c, limit);
            && (o.b == m.pos && o.c == c && o.end.Ready? <== m.value.kind == 'Z' as int)
            && (o.b == m.pos && o.c == c && o.end.Both? <== m.value.kind == 'W' as int)
            && (m.value.kind == 'G' as int && CopyStream(cs, c, e) ==>
                  e <= |cs| && o == Prepend(bs[b..m.pos], cs[c..e], Relayed(bs, cs, m.pos, e, limit)))
            && (m.value.kind == 'H' as int && CopyStream(bs, m.pos, e) ==>
                  e <= |bs| && o == Prepend(bs[b..e], [], Relayed(bs, cs, e, c, limit)))
            && (m.value.kind == 'G' as int && (forall x: nat :: !CopyStream(cs, c, x)) ==> o.end.Failed?)
            && (m.value.kind == 'H' as int && (forall x: nat :: !CopyStream(bs, m.pos, x)) ==> o.end.Failed?)
            && (m.value.kind !in {'Z' as int, 'W' as int, 'G' as int, 'H' as int} ==>
                  o == Prepend(bs[b..m.pos], [], Relayed(bs, cs, m.pos, c, limit)))
  {
    hide ReadFrame, CopyStream, Copy;
    var m := ReadFrame(bs, b, limit);
    if m.value.kind == COPY_IN {
      CopyExact(cs, c);
      assert Copy(cs, c).ok ==> CopyStream(cs, c, Copy(cs, c).pos);
    } else if m.value.kind == COPY_OUT {
      CopyExact(bs, m.pos);
      assert Copy(bs, m.pos).ok ==> CopyStream(bs, m.pos, Copy(bs, m.pos).pos);
      SliceTwice(bs, b, m.pos, Copy(bs, m.pos).pos);
    }
  }
}
