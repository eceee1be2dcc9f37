/** What every interleaving of the transaction-pooling machine keeps: each connection is in
    exactly one place, each pool's books balance, no wake-up is lost, and every session returns
    what it borrows. */
module Pooling {
  import opened Wrappers
  import opened ConnPool
  import opened Proxy
  import TxState

  // ---------------------------------------------------------------- counting

  /** What is counted over all sessions: holders of a connection, open slots of a pool in use,
      and calls of Acquire or Discard at a certain stage in a pool. */
  datatype Tally = Holders | Slots | Waiters | Wakers | Signals

  /** What session s contributes; n is a connection id for Holders, else a pool. */
  function Weight(k: Tally, s: Session, n: nat): nat {
    match k
    case Holders => if Held(s).Some? && Held(s).value.conn.id == n then 1 else 0
    case Slots =>
      (if Held(s).Some? && Held(s).value.pool == n then 1 else 0)
      + (if s.pc.Acquiring? && s.pc.pool == n && s.pc.stage.Dialing? then 1 else 0)
    case Waiters => if s.pc.Acquiring? && s.pc.pool == n && s.pc.stage.Waiting? then 1 else 0
    case Wakers => if s.pc.Acquiring? && s.pc.pool == n && s.pc.stage.Woken? then 1 else 0
    case Signals => if s.pc.Signalling? && s.pc.pool == n then 1 else 0
  }

  function Total(k: Tally, ss: seq<Session>, n: nat): nat {
    if ss == [] then 0 else Total(k, ss[..|ss| - 1], n) + Weight(k, ss[|ss| - 1], n)
  }

  /** How often connection c occurs in a list. */
  function Count(conns: seq<Conn>, c: nat): nat {
    if conns == [] then 0
    else Count(conns[..|conns| - 1], c) + if conns[|conns| - 1].id == c then 1 else 0
  }

  function IdleTotal(pools: seq<PoolState>, c: nat): nat {
    if pools == [] then 0 else IdleTotal(pools[..|pools| - 1], c) + Count(pools[|pools| - 1].idle, c)
  }

  lemma {:induction false} TotalUpdate(k: Tally, ss: seq<Session>, i: nat, s: Session, n: nat)
    requires i < |ss|
    ensures Total(k, ss[i := s], n) == Total(k, ss, n) - Weight(k, ss[i], n) + Weight(k, s, n)
    ensures Total(k, ss, n) >= Weight(k, ss[i], n)
  {
    hide Weight;
    var m := |ss| - 1;
    if i == m {
      assert ss[i := s][..m] == ss[..m];
    } else {
      assert ss[i := s][..m] == ss[..m][i := s];
      TotalUpdate(k, ss[..m], i, s, n);
    }
  }

  lemma TotalAppend(k: Tally, ss: seq<Session>, s: Session, n: nat)
    ensures Total(k, ss + [s], n) == Total(k, ss, n) + Weight(k, s, n)
  {
    hide Weight;
    assert (ss + [s])[..|ss|] == ss;
  }

  lemma {:induction false} IdleUpdate(pools: seq<PoolState>, i: nat, p: PoolState, c: nat)
    requires i < |pools|
    ensures IdleTotal(pools[i := p], c) == IdleTotal(pools, c) - Count(pools[i].idle, c) + Count(p.idle, c)
    ensures IdleTotal(pools, c) >= Count(pools[i].idle, c)
  {
    hide Count;
    var m := |pools| - 1;
    if i == m {
      assert pools[i := p][..m] == pools[..m];
    } else {
      assert pools[i := p][..m] == pools[..m][i := p];
      IdleUpdate(pools[..m], i, p, c);
    }
  }

  lemma {:induction false} CountConcat(a: seq<Conn>, b: seq<Conn>, c: nat)
    ensures Count(a + b, c) == Count(a, c) + Count(b, c)
  {
    if b == [] {
      assert a + b == a;
    } else {
      assert (a + b)[..|a + b| - 1] == a + b[..|b| - 1];
      CountConcat(a, b[..|b| - 1], c);
    }
  }

  lemma CountNone(c: nat)
    ensures Count([], c) == 0
  {}

  lemma CountOne(conn: Conn, c: nat)
    ensures Count([conn], c) == if conn.id == c then 1 else 0
  {
    assert [conn][..0] == [];
  }

  // ---------------------------------------------------------------- the invariant

  /** Everywhere connection c can be: idle in a pool, held by a session, or closed. */
  function Places(st: State, c: nat): nat {
    IdleTotal(st.pools, c) + Total(Holders, st.sessions, c) + Count(st.shut, c)
  }

  /** Slots and idle connections a new Acquire could use. */
  function Free(p: PoolState): int {
    |p.idle| + p.cfg.max - p.numOpen
  }

  /** Wake-ups under way for a pool: buffered tokens, discards about to signal, and waiters that
      have taken a token but not yet retried. */
  function WakeUps(st: State, p: nat): nat
    requires p < |st.pools|
  {
    st.pools[p].tokens + Total(Signals, st.sessions, p) + Total(Wakers, st.sessions, p)
  }

  /** The books of pool p balance. */
  predicate Balanced(st: State, p: nat)
    requires p < |st.pools|
  {
    var pool := st.pools[p];
    && pool.cfg.min <= pool.cfg.max
    && pool.numOpen == |pool.idle| + Total(Slots, st.sessions, p)
    && pool.numOpen <= pool.cfg.max
    && pool.tokens <= pool.cfg.max
    && (pool.closed ==> pool.idle == [])
  }

  /** While someone waits on an open pool, every free slot has a wake-up under way, except those
      that failed dials gave back silently. */
  predicate Awake(st: State, p: nat)
    requires p < |st.pools| && p < |st.failedDials|
  {
    var pool := st.pools[p];
    !pool.closed && Total(Waiters, st.sessions, p) > 0 ==> Free(pool) <= WakeUps(st, p) + st.failedDials[p]
  }

  /** The local state of a session fits the point of the loop it has reached. */
  predicate LoopOk(s: Session) {
    match s.pc
    case AtHead => (s.bound.Some? <==> s.inTx) && (s.dirty ==> s.bound.Some?)
    case Acquiring(job, _, _) =>
      && s.bound.None? && !s.dirty && !job.was && job.now == s.inTx && (!job.kind.Write? ==> !s.inTx)
    case Executing(job, loan, acquired) =>
      && job.now == s.inTx
      && (if acquired then s.bound.None? && !s.dirty && !job.was && (!job.kind.Write? ==> !s.inTx)
          else s.bound == Some(loan) && job.was && job.kind.Write?)
    case Signalling(_, after) =>
      && s.bound.None? && !s.dirty && (!after.ToEnd? ==> !s.inTx)
      && (after.ToFallback? ==> !after.job.was && !after.job.now)
    case Ended => s.bound.None?
  }

  /** A session-modifying statement ran in the borrow. */
  predicate Modified(b: Borrow) {
    exists i :: 0 <= i < |b.ran| && TxState.IsSessionModifying(b.ran[i])
  }

  /** How a borrow has to end: on the writer path it is released after a reset that succeeded and
      discarded after one that failed, if it ran a session-modifying statement, and released as it
      is otherwise; on the reader path it is released unless something went wrong. */
  function Due(b: Borrow, good: bool): How {
    if b.kind.Write? then (if !Modified(b) then Plain else if good then Reset else ResetFailed)
    else if good then Plain else Broken
  }

  /** A finished borrow went back once, to the pool that lent it, and in the way that was due; a
      modified reader borrow never is reset. */
  predicate Settled(b: Borrow) {
    |b.ends| == 1 && b.ends[0].pool == b.loan.pool && b.ends[0].how == Due(b, b.ends[0].good)
  }

  /** The borrow a session has open is its last one. */
  predicate HistoryOk(s: Session) {
    var n := |s.history| - if Held(s).Some? then 1 else 0;
    && 0 <= n
    && (forall i :: 0 <= i < n ==> Settled(s.history[i]))
    && (Held(s).Some? ==>
          var b := s.history[n];
          && b.loan == Held(s).value && b.ends == []
          && (s.pc.Executing? && s.pc.acquired ==> b.kind == s.pc.job.kind && b.ran == [])
          && (!(s.pc.Executing? && s.pc.acquired) ==> b.kind.Write? && Modified(b) == s.dirty))
  }

  /** Every pool a session refers to exists. */
  predicate Scoped(st: State, s: Session) {
    && (Held(s).Some? ==> Held(s).value.pool < |st.pools|)
    && (s.pc.Acquiring? ==> s.pc.pool < |st.pools|)
    && (s.pc.Signalling? ==> s.pc.pool < |st.pools|)
  }

  predicate Shape(st: State) {
    && |st.failedDials| == |st.pools|
    && st.writer < |st.pools|
    && (forall a :: a in st.readers ==> st.readers[a] < |st.pools|)
  }

  predicate SessionsOk(st: State) {
    forall i :: 0 <= i < |st.sessions| ==> LoopOk(st.sessions[i]) && HistoryOk(st.sessions[i]) && Scoped(st, st.sessions[i])
  }

  predicate PoolsOk(st: State)
    requires Shape(st)
  {
    forall p :: 0 <= p < |st.pools| ==> Balanced(st, p) && Awake(st, p)
  }

  /** Every connection ever made is in exactly one place. */
  ghost predicate Located(st: State) {
    forall c: nat :: Places(st, c) == if c < st.nextConn then 1 else 0
  }

  ghost predicate Inv(st: State) {
    Shape(st) && SessionsOk(st) && PoolsOk(st) && Located(st)
  }

  // ---------------------------------------------------------------- one session, one pool

  /** st' differs from st in session sid, pool p and the lists of closed and new connections. */
  predicate Touches(st: State, st': State, sid: nat, p: nat) {
    && sid < |st.sessions| == |st'.sessions| && p < |st.pools| == |st'.pools|
    && |st'.failedDials| == |st.failedDials| == |st.pools|
    && st'.sessions == st.sessions[sid := st'.sessions[sid]]
    && st'.pools == st.pools[p := st'.pools[p]]
    && st'.failedDials == st.failedDials[p := st'.failedDials[p]]
    && st'.writer == st.writer && st'.readers == st.readers
  }

  /** The change conserves connections. */
  predicate Conserves(st: State, st': State, sid: nat, p: nat, c: nat)
    requires Touches(st, st', sid, p)
  {
    Count(st'.pools[p].idle, c) + Weight(Holders, st'.sessions[sid], c) + Count(st'.shut, c) + (if c < st.nextConn then 1 else 0)
    == Count(st.pools[p].idle, c) + Weight(Holders, st.sessions[sid], c) + Count(st.shut, c) + (if c < st'.nextConn then 1 else 0)
  }

  /** The session contributes the same to every other pool. */
  ghost predicate OthersSame(s: Session, s': Session, p: nat) {
    forall k: Tally, q: nat :: k != Holders && q != p ==> Weight(k, s', q) == Weight(k, s, q)
  }

  /** The pool's books move with what the session holds. */
  predicate KeepsBooks(pool: PoolState, pool': PoolState, s: Session, s': Session, p: nat) {
    && pool'.cfg == pool.cfg && pool'.closed == pool.closed
    && (pool'.closed ==> pool'.idle == [])
    && pool'.numOpen - |pool'.idle| - Weight(Slots, s', p) == pool.numOpen - |pool.idle| - Weight(Slots, s, p)
    && pool'.numOpen <= pool'.cfg.max && pool'.tokens <= pool'.cfg.max
  }

  function Pending(pool: PoolState, s: Session, p: nat, failed: nat): nat {
    pool.tokens + Weight(Signals, s, p) + Weight(Wakers, s, p) + failed
  }

  /** The change loses no wake-up: nothing is free, the token buffer is full, or free capacity
      does not outgrow the wake-ups while no new waiter appears. */
  predicate KeepsAwake(pool: PoolState, pool': PoolState, s: Session, s': Session, p: nat, failed: nat, failed': nat) {
    || pool'.closed
    || Free(pool') <= 0
    || pool'.tokens == pool'.cfg.max
    || (&& Free(pool') - Pending(pool', s', p, failed') <= Free(pool) - Pending(pool, s, p, failed)
        && Weight(Waiters, s', p) <= Weight(Waiters, s, p))
  }

  lemma TouchLocated(st: State, st': State, sid: nat, p: nat, c: nat)
    requires Touches(st, st', sid, p) && Conserves(st, st', sid, p, c)
    requires Places(st, c) == if c < st.nextConn then 1 else 0
    ensures Places(st', c) == if c < st'.nextConn then 1 else 0
  {
    hide Weight, Count;
    TotalUpdate(Holders, st.sessions, sid, st'.sessions[sid], c);
    IdleUpdate(st.pools, p, st'.pools[p], c);
  }

  lemma TouchPool(st: State, st': State, sid: nat, p: nat)
    requires Shape(st) && Touches(st, st', sid, p) && Balanced(st, p) && Awake(st, p)
    requires KeepsBooks(st.pools[p], st'.pools[p], st.sessions[sid], st'.sessions[sid], p)
    requires KeepsAwake(st.pools[p], st'.pools[p], st.sessions[sid], st'.sessions[sid], p, st.failedDials[p], st'.failedDials[p])
    ensures Balanced(st', p) && Awake(st', p)
  {
    hide Weight, Total;
    var s' := st'.sessions[sid];
    TotalUpdate(Slots, st.sessions, sid, s', p);
    TotalUpdate(Waiters, st.sessions, sid, s', p);
    TotalUpdate(Wakers, st.sessions, sid, s', p);
    TotalUpdate(Signals, st.sessions, sid, s', p);
  }

  lemma TouchOther(st: State, st': State, sid: nat, p: nat, q: nat)
    requires Shape(st) && Touches(st, st', sid, p) && OthersSame(st.sessions[sid], st'.sessions[sid], p)
    requires q < |st.pools| && q != p && Balanced(st, q) && Awake(st, q)
    ensures Balanced(st', q) && Awake(st', q)
  {
    hide Weight, Total;
    var s' := st'.sessions[sid];
    TotalUpdate(Slots, st.sessions, sid, s', q);
    TotalUpdate(Waiters, st.sessions, sid, s', q);
    TotalUpdate(Wakers, st.sessions, sid, s', q);
    TotalUpdate(Signals, st.sessions, sid, s', q);
  }

  /** A step of one session on one pool keeps the invariant if it keeps it locally. */
  lemma TouchKeepsInv(st: State, st': State, sid: nat, p: nat)
    requires Inv(st) && Touches(st, st', sid, p)
    requires var s, s' := st.sessions[sid], st'.sessions[sid];
             && OthersSame(s, s', p)
             && KeepsBooks(st.pools[p], st'.pools[p], s, s', p)
             && KeepsAwake(st.pools[p], st'.pools[p], s, s', p, st.failedDials[p], st'.failedDials[p])
             && LoopOk(s') && HistoryOk(s') && Scoped(st, s')
    requires forall c: nat :: Conserves(st, st', sid, p, c)
    ensures Inv(st')
  {
    hide Weight, Total, Places, Conserves, KeepsBooks, KeepsAwake, OthersSame, Balanced, Awake, LoopOk, HistoryOk;
    forall c: nat ensures Places(st', c) == if c < st'.nextConn then 1 else 0 {
      TouchLocated(st, st', sid, p, c);
    }
    forall q | 0 <= q < |st'.pools| ensures Balanced(st', q) && Awake(st', q) {
      if q == p {
        TouchPool(st, st', sid, p);
      } else {
        TouchOther(st, st', sid, p, q);
      }
    }
  }

  // ---------------------------------------------------------------- the steps of a session

  /** A session step that leaves every pool alone. */
  lemma QuietKeepsInv(st: State, sid: nat, s': Session)
    requires Inv(st) && sid < |st.sessions|
    requires LoopOk(s') && HistoryOk(s') && Scoped(st, s')
    requires Held(s') == Held(st.sessions[sid])
    requires forall n: nat :: Weight(Slots, s', n) == Weight(Slots, st.sessions[sid], n)
    requires forall n: nat :: Weight(Wakers, s', n) == Weight(Wakers, st.sessions[sid], n)
    requires forall n: nat :: Weight(Signals, s', n) == Weight(Signals, st.sessions[sid], n)
    requires forall n: nat :: Weight(Waiters, s', n) <= Weight(Waiters, st.sessions[sid], n)
    ensures Inv(SetSession(st, sid, s'))
  {
    hide Total, LoopOk, HistoryOk, Scoped;
    var st' := SetSession(st, sid, s');
    forall c: nat ensures Places(st', c) == if c < st'.nextConn then 1 else 0 {
      TotalUpdate(Holders, st.sessions, sid, s', c);
      assert Places(st, c) == if c < st.nextConn then 1 else 0;
    }
    forall p | 0 <= p < |st'.pools| ensures Balanced(st', p) && Awake(st', p) {
      assert Balanced(st, p) && Awake(st, p);
      TotalUpdate(Slots, st.sessions, sid, s', p);
      TotalUpdate(Waiters, st.sessions, sid, s', p);
      TotalUpdate(Wakers, st.sessions, sid, s', p);
      TotalUpdate(Signals, st.sessions, sid, s', p);
    }
    forall i | 0 <= i < |st'.sessions|
      ensures LoopOk(st'.sessions[i]) && HistoryOk(st'.sessions[i]) && Scoped(st', st'.sessions[i])
    {
      ScopedSame(st, st', st'.sessions[i]);
      assert i != sid ==> st'.sessions[i] == st.sessions[i];
    }
  }

  lemma ScopedSame(st: State, st': State, s: Session)
    requires |st.pools| <= |st'.pools|
    ensures Scoped(st, s) ==> Scoped(st', s)
  {}

  lemma QueryKeepsInv(st: State, sid: nat, text: string, info: TxState.RouteInput, target: Target, allowed: bool)
    requires Inv(st) && sid < |st.sessions|
    ensures Inv(ApplyQuery(st, sid, text, info, target, allowed))
  {
    hide Inv, TxState.TxAfter, TxState.IsSessionModifying, TxState.RouteOf;
    var s := st.sessions[sid];
    InvSession(st, sid);
    ReaderOutsideTx(s.inTx, text, info);
    if s.pc.AtHead? {
      var now := TxState.TxAfter(s.inTx, text);
      var job := Job(Write, s.inTx, now, text);
      if TxState.RouteOf(s.inTx, text, info).ToWriter? {
        if s.bound.Some? {
          QuietKeepsInv(st, sid, s.(inTx := now, pc := Executing(job, s.bound.value, false)));
        } else if !allowed {
          QuietKeepsInv(st, sid, s.(inTx := now, pc := Ended));
        } else {
          QuietKeepsInv(st, sid, s.(inTx := now, pc := Start(Write, job, st.writer)));
        }
      } else if target.CacheHit? {
        QuietKeepsInv(st, sid, s.(inTx := now));
      } else if target.ReaderAt? && target.addr in st.readers {
        QuietKeepsInv(st, sid, s.(inTx := now, pc := Start(Read, job, st.readers[target.addr])));
      } else {
        QuietKeepsInv(st, sid, s.(inTx := now, pc := Start(Fallback, job, st.writer)));
      }
    }
  }

  /** A query goes to a reader only outside transactions, before and after it. */
  lemma ReaderOutsideTx(inTx: bool, text: string, info: TxState.RouteInput)
    ensures TxState.RouteOf(inTx, text, info).ToReader? ==> !inTx && !TxState.TxAfter(inTx, text)
  {
    hide TxState.FastEffect, TxState.ScanTx, TxState.MentionsTx;
  }

  lemma InvSession(st: State, sid: nat)
    requires Inv(st) && sid < |st.sessions|
    ensures LoopOk(st.sessions[sid]) && HistoryOk(st.sessions[sid]) && Scoped(st, st.sessions[sid]) && Shape(st)
  {}

  lemma InvPool(st: State, p: nat)
    requires Inv(st) && p < |st.pools|
    ensures Shape(st) && Balanced(st, p)
  {}

  /** What one round of Acquire does to the connections of the pool. */
  lemma AcquireCounts(pool: PoolState, now: int, c: nat)
    ensures var (pool', a) := AcquireStep(pool, now);
            Count(pool.idle, c) == Count(pool'.idle, c) + Count(Dropped(pool, now), c)
                                   + if a.Handed? && a.conn.id == c then 1 else 0
  {
    if !pool.closed {
      var n := LiveLen(pool.idle, pool.cfg, now);
      CountConcat(pool.idle[..n], pool.idle[n..], c);
      assert pool.idle[..n] + pool.idle[n..] == pool.idle;
      if n > 0 {
        assert pool.idle[..n][..n - 1] == pool.idle[..n - 1];
      } else {
        assert pool.idle[..n] == [];
      }
    } else {
      assert Dropped(pool, now) == [];
    }
  }

  predicate CanTryLock(st: State, sid: nat)
    requires sid < |st.sessions|
  {
    var pc := st.sessions[sid].pc;
    pc.Acquiring? && (pc.stage.Fresh? || pc.stage.Woken?) && pc.pool < |st.pools|
  }

  lemma TryLockConserves(st: State, sid: nat, now: int, c: nat)
    requires sid < |st.sessions| && CanTryLock(st, sid) && LoopOk(st.sessions[sid]) && Shape(st)
    ensures Touches(st, ApplyTryLock(st, sid, now), sid, st.sessions[sid].pc.pool)
    ensures Conserves(st, ApplyTryLock(st, sid, now), sid, st.sessions[sid].pc.pool, c)
  {
    hide Count, AcquireStep, Dropped;
    var pool := st.pools[st.sessions[sid].pc.pool];
    AcquireCounts(pool, now, c);
    CountConcat(st.shut, Dropped(pool, now), c);
  }

  lemma TryLockBooks(st: State, sid: nat, now: int)
    requires sid < |st.sessions| && CanTryLock(st, sid) && LoopOk(st.sessions[sid])
    requires var p := st.sessions[sid].pc.pool; Shape(st) && Balanced(st, p)
    ensures var p := st.sessions[sid].pc.pool;
            var s, st' := st.sessions[sid], ApplyTryLock(st, sid, now);
            && |st'.pools| == |st.pools| && |st'.sessions| == |st.sessions| && st'.failedDials == st.failedDials
            && OthersSame(s, st'.sessions[sid], p)
            && KeepsBooks(st.pools[p], st'.pools[p], s, st'.sessions[sid], p)
            && KeepsAwake(st.pools[p], st'.pools[p], s, st'.sessions[sid], p, st.failedDials[p], st'.failedDials[p])
  {
    hide Dropped, AcquireStep, Total;
    var p, s, st' := st.sessions[sid].pc.pool, st.sessions[sid], ApplyTryLock(st, sid, now);
    AcquireBooks(st.pools[p], now);
    var (pool', a) := AcquireStep(st.pools[p], now);
    assert KeepsAwake(st.pools[p], pool', s, st'.sessions[sid], p, st.failedDials[p], st'.failedDials[p]) by {
      match a
      case PoolClosed =>
      case Handed(conn) => assert Weight(Wakers, st'.sessions[sid], p) == 0;
      case MayDial =>
      case MustWait =>
    }
  }

  lemma TryLockSession(st: State, sid: nat, now: int)
    requires sid < |st.sessions| && CanTryLock(st, sid) && Shape(st)
    requires LoopOk(st.sessions[sid]) && HistoryOk(st.sessions[sid]) && Scoped(st, st.sessions[sid])
    ensures var s' := ApplyTryLock(st, sid, now).sessions[sid]; LoopOk(s') && HistoryOk(s') && Scoped(st, s')
  {
    hide Dropped, AcquireStep;
  }

  lemma TryLockKeepsInv(st: State, sid: nat, now: int)
    requires Inv(st) && sid < |st.sessions|
    ensures Inv(ApplyTryLock(st, sid, now))
  {
    hide Inv, Touches, Conserves, OthersSame, KeepsBooks, KeepsAwake, LoopOk, HistoryOk, Scoped, Shape, Balanced;
    InvSession(st, sid);
    if CanTryLock(st, sid) {
      var p, st' := st.sessions[sid].pc.pool, ApplyTryLock(st, sid, now);
      InvPool(st, p);
      TryLockConserves(st, sid, now, 0);
      forall c: nat ensures Conserves(st, st', sid, p, c) {
        TryLockConserves(st, sid, now, c);
      }
      TryLockBooks(st, sid, now);
      TryLockSession(st, sid, now);
      TouchKeepsInv(st, st', sid, p);
    }
  }

  lemma AcquireBooks(pool: PoolState, now: int)
    requires pool.numOpen <= pool.cfg.max && (pool.closed ==> pool.idle == [])
    ensures var (pool', a) := AcquireStep(pool, now);
            && pool'.cfg == pool.cfg && pool'.closed == pool.closed && pool'.tokens == pool.tokens
            && (pool.closed ==> pool' == pool)
            && (a.PoolClosed? <==> pool.closed)
            && pool'.numOpen <= pool.cfg.max
            && (a.Handed? || a.MayDial? ==> Free(pool') == Free(pool) - 1)
            && (a.MustWait? ==> Free(pool') <= 0)
            && pool'.numOpen - |pool'.idle| == pool.numOpen - |pool.idle| + if a.Handed? || a.MayDial? then 1 else 0
  {}

  lemma DialOkKeepsInv(st: State, sid: nat, now: int)
    requires Inv(st) && sid < |st.sessions|
    ensures Inv(ApplyDialOk(st, sid, now))
  {
    hide Inv, Count;
    var s, st' := st.sessions[sid], ApplyDialOk(st, sid, now);
    InvSession(st, sid);
    if IsAt(st, sid, Dialing) {
      var p, conn := s.pc.pool, Conn(st.nextConn, now, now);
      InvPool(st, p);
      forall c: nat ensures Conserves(st, st', sid, p, c) {
        CountOne(conn, c);
        CountConcat(st.shut, [conn], c);
        assert st.shut + [] == st.shut;
      }
      TouchKeepsInv(st, st', sid, p);
    }
  }

  lemma DialErrKeepsInv(st: State, sid: nat)
    requires Inv(st) && sid < |st.sessions|
    ensures Inv(ApplyDialErr(st, sid))
  {
    hide Inv, Count;
    var s, st' := st.sessions[sid], ApplyDialErr(st, sid);
    InvSession(st, sid);
    if IsAt(st, sid, Dialing) {
      InvPool(st, s.pc.pool);
      TouchKeepsInv(st, st', sid, s.pc.pool);
    }
  }

  lemma ReceiveKeepsInv(st: State, sid: nat)
    requires Inv(st) && sid < |st.sessions|
    ensures Inv(ApplyReceive(st, sid))
  {
    hide Inv, Count;
    var s, st' := st.sessions[sid], ApplyReceive(st, sid);
    InvSession(st, sid);
    if IsAt(st, sid, Waiting) && st.pools[s.pc.pool].tokens > 0 {
      InvPool(st, s.pc.pool);
      TouchKeepsInv(st, st', sid, s.pc.pool);
    }
  }

  lemma SignalKeepsInv(st: State, sid: nat)
    requires Inv(st) && sid < |st.sessions|
    ensures Inv(ApplySignal(st, sid))
  {
    hide Inv, Count;
    var s, st' := st.sessions[sid], ApplySignal(st, sid);
    InvSession(st, sid);
    if s.pc.Signalling? {
      InvPool(st, s.pc.pool);
      TouchKeepsInv(st, st', sid, s.pc.pool);
    }
  }

  lemma GiveUpKeepsInv(st: State, sid: nat)
    requires Inv(st) && sid < |st.sessions|
    ensures Inv(ApplyAction(st, sid, GiveUp))
  {
    hide Inv, Count;
    InvSession(st, sid);
    if IsAt(st, sid, Waiting) {
      var s := st.sessions[sid];
      QuietKeepsInv(st, sid, s.(pc := FailPc(st, s.pc.job)));
    }
  }

  /** A session gives back the connection it holds. */
  lemma GiveBackKeepsInv(st: State, sid: nat, s: Session, loan: Loan, how: How, good: bool, after: After, now: int)
    requires Inv(st) && sid < |st.sessions| && loan.pool < |st.pools|
    requires var u := st.sessions[sid]; Held(u) == Some(loan) && (u.pc.AtHead? || u.pc.Executing?)
    requires s.bound.None?
    requires var v := GiveBack(st, sid, s, loan, how, good, after, now).sessions[sid]; LoopOk(v) && HistoryOk(v)
    ensures Inv(GiveBack(st, sid, s, loan, how, good, after, now))
  {
    hide Inv, Touches, Conserves, OthersSame, KeepsBooks, KeepsAwake, LoopOk, HistoryOk;
    var p, st' := loan.pool, GiveBack(st, sid, s, loan, how, good, after, now);
    InvSession(st, sid);
    InvPool(st, p);
    GiveBackConserves(st, sid, s, loan, how, good, after, now, 0);
    forall c: nat ensures Conserves(st, st', sid, p, c) {
      GiveBackConserves(st, sid, s, loan, how, good, after, now, c);
    }
    GiveBackBooks(st, sid, s, loan, how, good, after, now);
    TouchKeepsInv(st, st', sid, p);
  }

  lemma GiveBackConserves(st: State, sid: nat, s: Session, loan: Loan, how: How, good: bool, after: After, now: int, c: nat)
    requires sid < |st.sessions| && loan.pool < |st.pools| && s.bound.None? && Held(st.sessions[sid]) == Some(loan)
    requires Shape(st)
    ensures Touches(st, GiveBack(st, sid, s, loan, how, good, after, now), sid, loan.pool)
    ensures Conserves(st, GiveBack(st, sid, s, loan, how, good, after, now), sid, loan.pool, c)
  {
    hide Count;
    var pool, back := st.pools[loan.pool], loan.conn.(lastUsedAt := now);
    CountOne(loan.conn, c);
    CountOne(back, c);
    CountConcat(st.shut, [loan.conn], c);
    CountConcat(pool.idle, [back], c);
    assert st.shut + [] == st.shut;
  }

  lemma GiveBackBooks(st: State, sid: nat, s: Session, loan: Loan, how: How, good: bool, after: After, now: int)
    requires sid < |st.sessions| && loan.pool < |st.pools| && s.bound.None? && Held(st.sessions[sid]) == Some(loan)
    requires Shape(st) && Balanced(st, loan.pool) && (st.sessions[sid].pc.AtHead? || st.sessions[sid].pc.Executing?)
    ensures var p, u, st' := loan.pool, st.sessions[sid], GiveBack(st, sid, s, loan, how, good, after, now);
            && |st'.pools| == |st.pools| && |st'.sessions| == |st.sessions| && st'.failedDials == st.failedDials
            && OthersSame(u, st'.sessions[sid], p)
            && KeepsBooks(st.pools[p], st'.pools[p], u, st'.sessions[sid], p)
            && KeepsAwake(st.pools[p], st'.pools[p], u, st'.sessions[sid], p, st.failedDials[p], st'.failedDials[p])
            && Scoped(st, st'.sessions[sid])
  {
    hide Total;
    TotalUpdate(Slots, st.sessions, sid, st.sessions[sid], loan.pool);
    assert st.pools[loan.pool].numOpen > 0;
  }

  /** Ending the open borrow settles it. */
  lemma ReturnSettles(u: Session, v: Session, h: seq<Borrow>, r: Return)
    requires HistoryOk(u) && Held(u).Some? && Held(v).None?
    requires |h| == |u.history| && h[..|h| - 1] == u.history[..|h| - 1]
    requires v.history == Returned(h, r)
    requires var b := h[|h| - 1]; b.loan == Held(u).value && b.ends == [] && r.pool == b.loan.pool && r.how == Due(b, r.good)
    ensures HistoryOk(v)
  {
    hide TxState.IsSessionModifying;
    var n := |h| - 1;
    forall i | 0 <= i < n ensures v.history[i] == u.history[i] {
      assert h[..n][i] == u.history[..n][i];
    }
  }

  /** Noting a statement. */
  lemma MarkedIs(h: seq<Borrow>, text: string)
    requires h != []
    ensures var n := |h| - 1;
            && |Marked(h, text)| == |h| && Marked(h, text)[..n] == h[..n]
            && Marked(h, text)[n] == h[n].(ran := h[n].ran + [text])
            && (Modified(Marked(h, text)[n]) <==> Modified(h[n]) || TxState.IsSessionModifying(text))
  {
    hide TxState.IsSessionModifying;
    var n := |h| - 1;
    var more := h[n].ran + [text];
    assert more[|h[n].ran|] == text;
    assert forall i :: 0 <= i < |h[n].ran| ==> more[i] == h[n].ran[i];
  }

  /** What a finished statement on the writer path says of the borrow it ran in. */
  lemma WriteMarked(s: Session)
    requires s.pc.Executing? && s.pc.job.kind.Write? && LoopOk(s) && HistoryOk(s)
    ensures var h, job := s.history, s.pc.job;
            && h != [] && |Marked(h, job.text)| == |h| && Marked(h, job.text)[..|h| - 1] == h[..|h| - 1]
            && var b := Marked(h, job.text)[|h| - 1];
               b.loan == s.pc.loan && b.ends == [] && b.kind.Write? && (Modified(b) <==> s.dirty || Modifying(job))
  {
    hide TxState.IsSessionModifying, Marked;
    MarkedIs(s.history, s.pc.job.text);
    NoneModified(s.history[|s.history| - 1]);
  }

  lemma NoneModified(b: Borrow)
    ensures b.ran == [] ==> !Modified(b)
  {}

  /** The statement gives the connection back. */
  lemma WriteReturnKeepsInv(st: State, sid: nat, resetOk: bool, now: int)
    requires Inv(st) && sid < |st.sessions| && st.sessions[sid].pc.Executing? && st.sessions[sid].pc.job.kind.Write?
    requires var job := st.sessions[sid].pc.job; !job.now && (job.was || st.sessions[sid].pc.acquired)
    requires st.sessions[sid].pc.loan.pool < |st.pools|
    ensures var s := st.sessions[sid];
            var t := s.(history := Marked(s.history, s.pc.job.text), bound := None, dirty := false);
            Inv(GiveBack(st, sid, t, s.pc.loan, HowClean(s.dirty || Modifying(s.pc.job), resetOk), resetOk, ToHead, now))
  {
    hide Inv, Marked, Modified, TxState.IsSessionModifying, HistoryOk;
    var s := st.sessions[sid];
    InvSession(st, sid);
    WriteMarked(s);
    var h := Marked(s.history, s.pc.job.text);
    var t := s.(history := h, bound := None, dirty := false);
    var how := HowClean(s.dirty || Modifying(s.pc.job), resetOk);
    var v := GiveBack(st, sid, t, s.pc.loan, how, resetOk, ToHead, now).sessions[sid];
    ReturnSettles(s, v, h, Return(s.pc.loan.pool, how, resetOk));
    GiveBackKeepsInv(st, sid, t, s.pc.loan, how, resetOk, ToHead, now);
  }

  /** The statement keeps the connection bound, or binds it. */
  lemma WriteBindsKeepsInv(st: State, sid: nat)
    requires Inv(st) && sid < |st.sessions| && st.sessions[sid].pc.Executing? && st.sessions[sid].pc.job.kind.Write?
    requires var s := st.sessions[sid]; s.pc.job.now && (!s.pc.job.was || !s.pc.acquired)
    ensures var s := st.sessions[sid];
            Inv(SetSession(st, sid, s.(history := Marked(s.history, s.pc.job.text), bound := Some(s.pc.loan),
                                       dirty := s.dirty || Modifying(s.pc.job), pc := AtHead)))
  {
    hide Inv, Marked, Modified, TxState.IsSessionModifying;
    InvSession(st, sid);
    var s := st.sessions[sid];
    WriteMarked(s);
    QuietKeepsInv(st, sid, s.(history := Marked(s.history, s.pc.job.text), bound := Some(s.pc.loan),
                              dirty := s.dirty || Modifying(s.pc.job), pc := AtHead));
  }

  lemma FinishWriteKeepsInv(st: State, sid: nat, resetOk: bool, now: int)
    requires Inv(st) && sid < |st.sessions| && st.sessions[sid].pc.Executing? && st.sessions[sid].pc.job.kind.Write?
    ensures Inv(FinishWrite(st, sid, resetOk, now))
  {
    hide Inv, Marked, HistoryOk, Modifying, GiveBack, HowClean;
    InvSession(st, sid);
    var s := st.sessions[sid];
    if s.pc.job.now {
      WriteBindsKeepsInv(st, sid);
    } else {
      WriteReturnKeepsInv(st, sid, resetOk, now);
    }
  }

  lemma FinishKeepsInv(st: State, sid: nat, outcome: Outcome, resetOk: bool, now: int)
    requires Inv(st) && sid < |st.sessions|
    ensures Inv(ApplyFinish(st, sid, outcome, resetOk, now))
  {
    hide Inv;
    var s := st.sessions[sid];
    InvSession(st, sid);
    if s.pc.Executing? {
      if s.pc.job.kind.Write? {
        FinishWriteKeepsInv(st, sid, resetOk, now);
      } else {
        var s' := s.(history := Marked(s.history, s.pc.job.text));
        MarkedIs(s.history, s.pc.job.text);
        var how := if outcome.Done? then Plain else Broken;
        var after := if outcome.Done? then ToHead
                     else if outcome.ForwardError? && s.pc.job.kind.Read? then ToFallback(s.pc.job)
                     else ToEnd;
        var v := GiveBack(st, sid, s', s.pc.loan, how, outcome.Done?, after, now).sessions[sid];
        ReturnSettles(s, v, s'.history, Return(s.pc.loan.pool, how, outcome.Done?));
        GiveBackKeepsInv(st, sid, s', s.pc.loan, how, outcome.Done?, after, now);
      }
    }
  }

  lemma LeaveKeepsInv(st: State, sid: nat, resetOk: bool, now: int)
    requires Inv(st) && sid < |st.sessions|
    ensures Inv(ApplyLeave(st, sid, resetOk, now))
  {
    hide Inv;
    var s := st.sessions[sid];
    InvSession(st, sid);
    if s.pc.AtHead? {
      if s.bound.None? {
        QuietKeepsInv(st, sid, s.(pc := Ended));
      } else {
        var t := s.(bound := None, dirty := false);
        var how := HowClean(s.dirty, resetOk);
        var v := GiveBack(st, sid, t, s.bound.value, how, resetOk, ToEnd, now).sessions[sid];
        ReturnSettles(s, v, s.history, Return(s.bound.value.pool, how, resetOk));
        GiveBackKeepsInv(st, sid, t, s.bound.value, how, resetOk, ToEnd, now);
      }
    }
  }

  lemma ActionKeepsInv(st: State, sid: nat, action: Action)
    requires Inv(st) && sid < |st.sessions|
    ensures Inv(ApplyAction(st, sid, action))
  {
    hide Inv, ApplyQuery, ApplyTryLock, ApplyDialOk, ApplyDialErr, ApplyReceive, ApplyFinish, ApplySignal, ApplyLeave;
    match action
    case Query(text, info, target, allowed) => QueryKeepsInv(st, sid, text, info, target, allowed);
    case TryLock(now) => TryLockKeepsInv(st, sid, now);
    case DialOk(now) => DialOkKeepsInv(st, sid, now);
    case DialErr => DialErrKeepsInv(st, sid);
    case Receive => ReceiveKeepsInv(st, sid);
    case GiveUp => GiveUpKeepsInv(st, sid);
    case Finish(outcome, resetOk, now) => FinishKeepsInv(st, sid, outcome, resetOk, now);
    case SignalDone => SignalKeepsInv(st, sid);
    case Leave(resetOk, now) => LeaveKeepsInv(st, sid, resetOk, now);
  }

  // ---------------------------------------------------------------- the steps of a pool

  /** A change of pool p alone keeps the invariant when idle and open connections change by the
      same number, no token appears or goes, and connections are conserved. */
  lemma PoolKeepsInv(st: State, p: nat, pool': PoolState, shut': seq<Conn>, next': nat)
    requires Inv(st) && p < |st.pools|
    requires var pool := st.pools[p];
             && pool'.cfg == pool.cfg && pool'.tokens == pool.tokens
             && (pool.closed ==> pool'.closed) && (pool'.closed ==> pool'.idle == [])
             && pool'.numOpen - |pool'.idle| == pool.numOpen - |pool.idle| && pool'.numOpen <= pool.cfg.max
    requires forall c: nat :: Count(pool'.idle, c) + Count(shut', c) + (if c < st.nextConn then 1 else 0)
                           == Count(st.pools[p].idle, c) + Count(st.shut, c) + (if c < next' then 1 else 0)
    ensures Inv(SetPool(st, p, pool').(shut := shut', nextConn := next'))
  {
    hide Total, LoopOk, HistoryOk, Count;
    var st' := SetPool(st, p, pool').(shut := shut', nextConn := next');
    forall c: nat ensures Places(st', c) == if c < st'.nextConn then 1 else 0 {
      IdleUpdate(st.pools, p, pool', c);
      assert Places(st, c) == if c < st.nextConn then 1 else 0;
    }
    forall q | 0 <= q < |st'.pools| ensures Balanced(st', q) && Awake(st', q) {
      assert Balanced(st, q) && Awake(st, q);
    }
    forall i | 0 <= i < |st'.sessions|
      ensures LoopOk(st'.sessions[i]) && HistoryOk(st'.sessions[i]) && Scoped(st', st'.sessions[i])
    {
      ScopedSame(st, st', st'.sessions[i]);
    }
  }

  lemma {:induction false} LiveCounts(idle: seq<Conn>, cfg: Config, now: int, c: nat)
    ensures Count(Live(idle, cfg, now), c) + Count(StaleOnes(idle, cfg, now), c) == Count(idle, c)
    ensures |Live(idle, cfg, now)| + |StaleOnes(idle, cfg, now)| == |idle|
  {
    if idle != [] {
      LiveCounts(idle[1..], cfg, now, c);
      CountConcat([idle[0]], idle[1..], c);
      assert [idle[0]] + idle[1..] == idle;
      CountConcat([idle[0]], Live(idle[1..], cfg, now), c);
      CountConcat([idle[0]], StaleOnes(idle[1..], cfg, now), c);
      assert [] + Live(idle[1..], cfg, now) == Live(idle[1..], cfg, now);
      assert [] + StaleOnes(idle[1..], cfg, now) == StaleOnes(idle[1..], cfg, now);
    }
  }

  lemma {:induction false} FreshCounts(from: nat, n: nat, now: int, c: nat)
    ensures Count(FreshConns(from, n, now), c) == if from <= c < from + n then 1 else 0
  {
    if n > 0 {
      FreshCounts(from, n - 1, now, c);
      CountConcat(FreshConns(from, n - 1, now), [Conn(from + n - 1, now, now)], c);
      CountOne(Conn(from + n - 1, now, now), c);
    }
  }

  lemma CheckKeepsInv(st: State, p: nat, now: int, ok: nat)
    requires Inv(st) && p < |st.pools|
    ensures Inv(ApplyCheck(st, p, now, ok))
  {
    hide Inv, Count, Live, StaleOnes, FreshConns;
    var pool := st.pools[p];
    InvPool(st, p);
    if pool.closed {
      assert st.shut + [] == st.shut;
      assert ApplyCheck(st, p, now, ok) == st by {
        assert st.pools[p := pool] == st.pools;
      }
    } else {
      var live, stale := Live(pool.idle, pool.cfg, now), StaleOnes(pool.idle, pool.cfg, now);
      var k := Replenished(pool, now, ok);
      LiveCounts(pool.idle, pool.cfg, now, 0);
      forall c: nat
        ensures Count(live + FreshConns(st.nextConn, k, now), c) + Count(st.shut + stale, c) + (if c < st.nextConn then 1 else 0)
             == Count(pool.idle, c) + Count(st.shut, c) + (if c < st.nextConn + k then 1 else 0)
      {
        LiveCounts(pool.idle, pool.cfg, now, c);
        FreshCounts(st.nextConn, k, now, c);
        CountConcat(live, FreshConns(st.nextConn, k, now), c);
        CountConcat(st.shut, stale, c);
      }
      PoolKeepsInv(st, p, HealthStep(pool, now, st.nextConn, ok), st.shut + stale, st.nextConn + k);
    }
  }

  lemma CloseKeepsInv(st: State, p: nat)
    requires Inv(st) && p < |st.pools|
    ensures Inv(ApplyClose(st, p))
  {
    hide Inv, Count;
    var pool := st.pools[p];
    InvPool(st, p);
    if pool.closed {
      assert st.shut + [] == st.shut;
      assert st.pools[p := pool] == st.pools;
    } else {
      forall c: nat ensures Count([], c) + Count(st.shut + pool.idle, c) == Count(pool.idle, c) + Count(st.shut, c) {
        CountConcat(st.shut, pool.idle, c);
        CountNone(c);
      }
      PoolKeepsInv(st, p, CloseStep(pool), st.shut + pool.idle, st.nextConn);
    }
  }

  lemma {:induction false} NoSlotsYet(k: Tally, ss: seq<Session>, st: State)
    requires k != Holders && forall i :: 0 <= i < |ss| ==> Scoped(st, ss[i])
    ensures Total(k, ss, |st.pools|) == 0
  {
    if ss != [] {
      NoSlotsYet(k, ss[..|ss| - 1], st);
    }
  }

  lemma OpenKeepsInv(st: State, cfg: Config, now: int)
    requires Inv(st)
    ensures Inv(Apply(st, OpenPool(cfg, now)))
  {
    hide Count, LoopOk, HistoryOk, Total;
    if cfg.min <= cfg.max {
      var st' := Apply(st, OpenPool(cfg, now));
      var pool, n := NewPool(cfg, st.nextConn, now), |st.pools|;
      NoSlotsYet(Slots, st.sessions, st);
      NoSlotsYet(Waiters, st.sessions, st);
      forall c: nat ensures Places(st', c) == if c < st'.nextConn then 1 else 0 {
        FreshCounts(st.nextConn, cfg.min, now, c);
        assert st'.pools[..n] == st.pools;
        assert Places(st, c) == if c < st.nextConn then 1 else 0;
      }
      forall q | 0 <= q < |st'.pools| ensures Balanced(st', q) && Awake(st', q) {
        if q < n {
          assert Balanced(st, q) && Awake(st, q);
          assert st'.pools[q] == st.pools[q] && st'.failedDials[q] == st.failedDials[q];
        }
      }
      forall i | 0 <= i < |st'.sessions|
        ensures LoopOk(st'.sessions[i]) && HistoryOk(st'.sessions[i]) && Scoped(st', st'.sessions[i])
      {
        ScopedSame(st, st', st'.sessions[i]);
      }
    }
  }

  lemma ConnectKeepsInv(st: State)
    requires Inv(st)
    ensures Inv(Apply(st, Connect))
  {
    hide Count, Total;
    var st' := Apply(st, Connect);
    forall c: nat ensures Places(st', c) == if c < st'.nextConn then 1 else 0 {
      TotalAppend(Holders, st.sessions, NewSession(), c);
      assert Places(st, c) == if c < st.nextConn then 1 else 0;
    }
    forall q | 0 <= q < |st'.pools| ensures Balanced(st', q) && Awake(st', q) {
      assert Balanced(st, q) && Awake(st, q);
      TotalAppend(Slots, st.sessions, NewSession(), q);
      TotalAppend(Waiters, st.sessions, NewSession(), q);
      TotalAppend(Wakers, st.sessions, NewSession(), q);
      TotalAppend(Signals, st.sessions, NewSession(), q);
    }
  }

  lemma RewireKeepsInv(st: State, writer: nat, readers: map<string, nat>)
    requires Inv(st) && writer < |st.pools| && forall a :: a in readers ==> readers[a] < |st.pools|
    ensures Inv(st.(writer := writer, readers := readers))
  {
    hide Count, Total, LoopOk, HistoryOk;
    var st' := st.(writer := writer, readers := readers);
    forall c: nat ensures Places(st', c) == if c < st'.nextConn then 1 else 0 {
      assert Places(st, c) == if c < st.nextConn then 1 else 0;
    }
    forall q | 0 <= q < |st'.pools| ensures Balanced(st', q) && Awake(st', q) {
      assert Balanced(st, q) && Awake(st, q);
    }
    forall i | 0 <= i < |st'.sessions|
      ensures LoopOk(st'.sessions[i]) && HistoryOk(st'.sessions[i]) && Scoped(st', st'.sessions[i])
    {
      ScopedSame(st, st', st'.sessions[i]);
    }
  }

  // ---------------------------------------------------------------- every run

  /** Every step of every session, pool and reload keeps the invariant. */
  lemma StepKeepsInv(st: State, step: Step)
    requires Inv(st)
    ensures Inv(Apply(st, step))
  {
    hide Inv, ApplyAction, ApplyCheck, ApplyClose;
    match step
    case Connect => ConnectKeepsInv(st);
    case Act(sid, action) => if sid < |st.sessions| { ActionKeepsInv(st, sid, action); }
    case Check(p, now, ok) => if p < |st.pools| { CheckKeepsInv(st, p, now, ok); }
    case OpenPool(cfg, now) => OpenKeepsInv(st, cfg, now);
    case ClosePool(p) => if p < |st.pools| { CloseKeepsInv(st, p); }
    case UseWriter(p) =>
      InvShape(st);
      if p < |st.pools| { RewireKeepsInv(st, p, st.readers); }
    case UseReaders(m) =>
      InvShape(st);
      if forall a :: a in m ==> m[a] < |st.pools| { RewireKeepsInv(st, st.writer, m); }
  }

  lemma InvShape(st: State)
    requires Inv(st)
    ensures Shape(st)
  {}

  lemma InitialInv(cfg: Config, now: int)
    requires cfg.min <= cfg.max
    ensures Inv(Initial(cfg, now))
  {
    var st := Initial(cfg, now);
    forall c: nat ensures Places(st, c) == if c < st.nextConn then 1 else 0 {
      FreshCounts(0, cfg.min, now, c);
      assert st.pools[..0] == [] && IdleTotal([], c) == 0;
      assert IdleTotal(st.pools, c) == Count(FreshConns(0, cfg.min, now), c);
    }
  }

  /** The invariant holds in every state of every run. */
  lemma {:induction false} RunKeepsInv(st: State, steps: seq<Step>)
    requires Inv(st)
    ensures Inv(Run(st, steps))
    decreases |steps|
  {
    hide Inv, Apply;
    if steps != [] {
      StepKeepsInv(st, steps[0]);
      RunKeepsInv(Apply(st, steps[0]), steps[1..]);
    }
  }
}
