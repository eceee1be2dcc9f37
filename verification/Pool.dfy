/** The connection pool of internal/pool/pool.go. Each critical section under the pool's mutex is
    one function on PoolState; class Pool runs the same sections on mutable fields. */
module ConnPool {

  /** A pooled connection: its identity and the two times the expiry tests look at. */
  datatype Conn = Conn(id: nat, createdAt: int, lastUsedAt: int)

  datatype Config = Config(min: nat, max: nat, idleTimeout: int, maxLifetime: int)

  /** tokens is the number of wake-ups buffered in waitCh, whose capacity is max. */
  datatype PoolState = PoolState(cfg: Config, idle: seq<Conn>, numOpen: int, tokens: nat, closed: bool)

  /** Conn.expired or Conn.idle. */
  predicate Stale(c: Conn, cfg: Config, now: int) {
    || (cfg.maxLifetime > 0 && now - c.createdAt > cfg.maxLifetime)
    || (cfg.idleTimeout > 0 && now - c.lastUsedAt > cfg.idleTimeout)
  }

  /** The connection may be lent: it is not older than the maximum lifetime and has not been idle for
      longer than the idle timeout, where a setting that is not positive sets no limit. */
  predicate Within(c: Conn, cfg: Config, now: int) {
    && (cfg.maxLifetime > 0 ==> now - c.createdAt <= cfg.maxLifetime)
    && (cfg.idleTimeout > 0 ==> now - c.lastUsedAt <= cfg.idleTimeout)
  }

  // ---------------------------------------------------------------- critical sections

  /** What one round of the Acquire loop decides under the lock. */
  datatype Attempt = PoolClosed | Handed(conn: Conn) | MayDial | MustWait

  /** How many idle connections are left once the stale ones at the end are dropped. */
  function LiveLen(idle: seq<Conn>, cfg: Config, now: int): (r: nat)
    ensures r <= |idle|
    ensures r > 0 ==> !Stale(idle[r - 1], cfg, now)
    ensures forall i :: r <= i < |idle| ==> Stale(idle[i], cfg, now)
  {
    if |idle| > 0 && Stale(idle[|idle| - 1], cfg, now) then LiveLen(idle[..|idle| - 1], cfg, now) else |idle|
  }

  function AcquireStep(p: PoolState, now: int): (r: (PoolState, Attempt)) {
    if p.closed then (p, PoolClosed)
    else
      var n := LiveLen(p.idle, p.cfg, now);
      var open := p.numOpen - (|p.idle| - n);
      if n > 0 then
        (p.(idle := p.idle[..n - 1], numOpen := open), Handed(p.idle[n - 1].(lastUsedAt := now)))
      else if open < p.cfg.max then (p.(idle := [], numOpen := open + 1), MayDial)
      else (p.(idle := [], numOpen := open), MustWait)
  }

  /** The connections AcquireStep closes on its way. */
  function Dropped(p: PoolState, now: int): seq<Conn> {
    if p.closed then [] else p.idle[LiveLen(p.idle, p.cfg, now)..]
  }

  /** What one round of Acquire does with the idle list: the connections it drops are those at the end
      that are not within their limits, and the one it hands out is the last that is. */
  predicate Round(p: PoolState, r: Attempt, dropped: seq<Conn>, left: seq<Conn>, now: int) {
    && (r.PoolClosed? <==> p.closed) && (p.closed ==> dropped == [] && left == p.idle)
    && (forall i :: 0 <= i < |dropped| ==> !Within(dropped[i], p.cfg, now))
    && (r.MayDial? || r.MustWait? ==> dropped == p.idle && left == [])
    && (r.Handed? ==>
          && |left| < |p.idle| && p.idle == left + [p.idle[|left|]] + dropped
          && Within(p.idle[|left|], p.cfg, now)
          && r.conn == Conn(p.idle[|left|].id, p.idle[|left|].createdAt, now))
  }

  lemma AcquireDoes(p: PoolState, now: int)
    ensures Round(p, AcquireStep(p, now).1, Dropped(p, now), AcquireStep(p, now).0.idle, now)
  {
    hide LiveLen, Within, Stale;
    var n := LiveLen(p.idle, p.cfg, now);
    forall c: Conn ensures Stale(c, p.cfg, now) <==> !Within(c, p.cfg, now) {
      StaleIs(c, p.cfg, now);
    }
    if !p.closed {
      assert Dropped(p, now) == p.idle[n..];
      if n > 0 {
        assert p.idle == p.idle[..n - 1] + [p.idle[n - 1]] + p.idle[n..];
      }
    }
  }

  lemma StaleIs(c: Conn, cfg: Config, now: int)
    ensures Stale(c, cfg, now) <==> !Within(c, cfg, now)
  {}

  /** A dial failed: its slot is given back, and nobody is told. */
  function DialFailStep(p: PoolState): PoolState {
    p.(numOpen := p.numOpen - 1)
  }

  /** A dial succeeded: kept if the pool is still open, else its slot is given back. */
  function DialDoneStep(p: PoolState): (PoolState, bool) {
    if p.closed then (p.(numOpen := p.numOpen - 1), false) else (p, true)
  }

  function Decremented(n: int): int {
    if n > 0 then n - 1 else n
  }

  /** A non-blocking send on waitCh. */
  function SignalStep(p: PoolState): PoolState {
    if p.tokens < p.cfg.max then p.(tokens := p.tokens + 1) else p
  }

  /** Release of conn; on a closed pool the connection is closed instead of kept. */
  function ReleaseStep(p: PoolState, conn: Conn, now: int): PoolState {
    if p.closed then p.(numOpen := Decremented(p.numOpen))
    else SignalStep(p.(idle := p.idle + [conn.(lastUsedAt := now)]))
  }

  /** The locked part of Discard; the signal follows outside the lock. */
  function DiscardStep(p: PoolState): PoolState {
    p.(numOpen := Decremented(p.numOpen))
  }

  function CloseStep(p: PoolState): PoolState {
    if p.closed then p
    else p.(closed := true, idle := [], numOpen := p.numOpen - |p.idle|)
  }

  /** The idle connections healthCheck keeps. */
  function Live(idle: seq<Conn>, cfg: Config, now: int): (r: seq<Conn>)
    ensures |r| <= |idle|
  {
    if idle == [] then []
    else (if Stale(idle[0], cfg, now) then [] else [idle[0]]) + Live(idle[1..], cfg, now)
  }

  /** part is what stands at the positions at of the list, in the same order. */
  ghost predicate Picks(conns: seq<Conn>, at: seq<nat>, part: seq<Conn>) {
    && |at| == |part|
    && (forall i :: 0 <= i < |at| ==> at[i] < |conns| && part[i] == conns[at[i]])
    && (forall i, j :: 0 <= i < j < |at| ==> at[i] < at[j])
  }

  /** The positions are those of the connections within their limits. */
  ghost predicate PicksWithin(conns: seq<Conn>, at: seq<nat>, cfg: Config, now: int) {
    forall j :: 0 <= j < |conns| ==> (j in at <==> Within(conns[j], cfg, now))
  }

  lemma PicksSnoc(conns: seq<Conn>, c: Conn, at: seq<nat>, part: seq<Conn>, cfg: Config, now: int)
    requires Picks(conns, at, part) && PicksWithin(conns, at, cfg, now)
    ensures if Within(c, cfg, now)
            then Picks(conns + [c], at + [|conns|], part + [c]) && PicksWithin(conns + [c], at + [|conns|], cfg, now)
            else Picks(conns + [c], at, part) && PicksWithin(conns + [c], at, cfg, now)
  {
    hide Within;
    forall j | 0 <= j < |conns| ensures (conns + [c])[j] == conns[j] {}
  }

  lemma {:induction false} LiveSnoc(idle: seq<Conn>, c: Conn, cfg: Config, now: int)
    ensures Live(idle + [c], cfg, now) == Live(idle, cfg, now) + if Within(c, cfg, now) then [c] else []
  {
    hide Within, Live;
    LiveUnfold(idle + [c], cfg, now);
    if idle == [] {
      assert (idle + [c])[1..] == [];
      LiveUnfold([], cfg, now);
    } else {
      LiveUnfold(idle, cfg, now);
      LiveSnoc(idle[1..], c, cfg, now);
      assert (idle + [c])[1..] == idle[1..] + [c];
    }
  }

  lemma LiveUnfold(idle: seq<Conn>, cfg: Config, now: int)
    ensures Live(idle, cfg, now) == if idle == [] then []
                                    else (if Within(idle[0], cfg, now) then [idle[0]] else []) + Live(idle[1..], cfg, now)
  {}

  /** What healthCheck keeps: exactly the connections within their limits, in order. */
  lemma {:induction false} LivePicks(idle: seq<Conn>, cfg: Config, now: int) returns (at: seq<nat>)
    ensures Picks(idle, at, Live(idle, cfg, now)) && PicksWithin(idle, at, cfg, now)
  {
    hide Live, Within, Picks, PicksWithin;
    if idle == [] {
      at := [];
      NonePicked(cfg, now);
    } else {
      var m := |idle| - 1;
      var rest := LivePicks(idle[..m], cfg, now);
      LiveSnoc(idle[..m], idle[m], cfg, now);
      assert idle == idle[..m] + [idle[m]];
      PicksSnoc(idle[..m], idle[m], rest, Live(idle[..m], cfg, now), cfg, now);
      var live := Live(idle[..m], cfg, now);
      assert live + [] == live;
      at := if Within(idle[m], cfg, now) then rest + [m] else rest;
    }
  }

  lemma NonePicked(cfg: Config, now: int)
    ensures Picks([], [], Live([], cfg, now)) && PicksWithin([], [], cfg, now)
  {}

  lemma PickedLength(conns: seq<Conn>, at: seq<nat>, part: seq<Conn>)
    requires Picks(conns, at, part)
    ensures |at| == |part|
  {}

  /** So all it keeps is within its limits. */
  lemma PickedWithin(conns: seq<Conn>, at: seq<nat>, part: seq<Conn>, cfg: Config, now: int)
    requires Picks(conns, at, part) && PicksWithin(conns, at, cfg, now)
    ensures forall i :: 0 <= i < |part| ==> Within(part[i], cfg, now)
  {
    hide Within;
    forall i | 0 <= i < |part| ensures Within(part[i], cfg, now) {
      assert at[i] in at;
    }
  }

  /** The idle connections healthCheck closes. */
  function StaleOnes(idle: seq<Conn>, cfg: Config, now: int): seq<Conn> {
    if idle == [] then []
    else (if Stale(idle[0], cfg, now) then [idle[0]] else []) + StaleOnes(idle[1..], cfg, now)
  }

  /** Connections with the ids from..from + n, just dialled. */
  function FreshConns(from: nat, n: nat, now: int): (r: seq<Conn>)
    ensures |r| == n
    ensures forall i :: 0 <= i < n ==> r[i] == Conn(from + i, now, now)
  {
    if n == 0 then [] else FreshConns(from, n - 1, now) + [Conn(from + n - 1, now, now)]
  }

  /** How many connections healthCheck adds when the first ok dials succeed. */
  function Replenished(p: PoolState, now: int, ok: nat): nat {
    if p.closed then 0 else Shortfall(p.numOpen - (|p.idle| - |Live(p.idle, p.cfg, now)|), p.cfg.min, ok)
  }

  /** What a pool with this open count lacks, as far as ok dials can fill it. */
  function Shortfall(open: int, min: nat, ok: nat): nat {
    if open >= min then 0 else if min - open < ok then min - open else ok
  }

  /** healthCheck: stale connections go, then the pool is refilled to its minimum. */
  function HealthStep(p: PoolState, now: int, from: nat, ok: nat): PoolState {
    if p.closed then p
    else
      var live := Live(p.idle, p.cfg, now);
      var k := Replenished(p, now, ok);
      p.(idle := live + FreshConns(from, k, now), numOpen := p.numOpen - (|p.idle| - |live|) + k)
  }

  /** New, when all its dials succeed. */
  function NewPool(cfg: Config, from: nat, now: int): PoolState {
    PoolState(cfg, FreshConns(from, cfg.min, now), cfg.min, 0, false)
  }

  // ---------------------------------------------------------------- the pool as an object

  class Pool {
    const cfg: Config
    var idle: seq<Conn>
    var numOpen: int
    var tokens: nat
    var closed: bool

    ghost function State(): PoolState
      reads this
    {
      PoolState(cfg, idle, numOpen, tokens, closed)
    }

    /** New: dialled holds the connections of the dials that succeeded, in order; a dial that
        fails before the minimum is reached leaves a closed pool behind. */
    constructor (cfg: Config, dialled: seq<Conn>)
      requires |dialled| <= cfg.min
      ensures |dialled| == cfg.min ==> State() == PoolState(cfg, dialled, cfg.min, 0, false)
      ensures |dialled| < cfg.min ==> State() == CloseStep(PoolState(cfg, dialled, |dialled|, 0, false))
    {
      this.cfg := cfg;
      idle, numOpen, tokens, closed := dialled, |dialled|, 0, false;
      new;
      if |dialled| < cfg.min {
        var _ := Close();
      }
    }

    /** One round of the Acquire loop under the lock: pop idle connections from the end until a
        usable one turns up, else take a slot to dial, else wait. */
    method TryAcquire(now: int) returns (r: Attempt, dropped: seq<Conn>)
      modifies this
      ensures (State(), r) == AcquireStep(old(State()), now)
      ensures dropped == Dropped(old(State()), now)
      ensures Round(old(State()), r, dropped, idle, now)
    {
      hide Round, Stale;
      AcquireDoes(State(), now);
      if closed {
        return PoolClosed, [];
      }
      var before := idle;
      while |idle| > 0
        invariant !closed && tokens == old(tokens)
        invariant |idle| <= |before| && idle == before[..|idle|]
        invariant LiveLen(before, cfg, now) == LiveLen(idle, cfg, now)
        invariant numOpen == old(numOpen) - (|before| - |idle|)
        decreases |idle|
      {
        var n := |idle|;
        var conn := idle[n - 1];
        idle := idle[..n - 1];
        assert idle == before[..n - 1];
        if !Stale(conn, cfg, now) {
          return Handed(conn.(lastUsedAt := now)), before[n..];
        }
        numOpen := numOpen - 1;
      }
      if numOpen < cfg.max {
        numOpen := numOpen + 1;
        return MayDial, before;
      }
      return MustWait, before;
    }

    method DialFailed()
      modifies this
      ensures State() == DialFailStep(old(State()))
    {
      numOpen := numOpen - 1;
    }

    /** The re-check after a dial: a pool closed meanwhile does not hand the connection out. */
    method DialDone() returns (kept: bool)
      modifies this
      ensures (State(), kept) == DialDoneStep(old(State()))
    {
      if closed {
        numOpen := numOpen - 1;
        return false;
      }
      return true;
    }

    method Signal()
      modifies this
      ensures State() == SignalStep(old(State()))
    {
      if tokens < cfg.max {
        tokens := tokens + 1;
      }
    }

    method Release(conn: Conn, now: int) returns (shut: bool)
      modifies this
      ensures State() == ReleaseStep(old(State()), conn, now)
      ensures idle == old(idle) + if old(closed) then [] else [Conn(conn.id, conn.createdAt, now)]
      ensures shut == old(closed)
    {
      if closed {
        if numOpen > 0 {
          numOpen := numOpen - 1;
        }
        return true;
      }
      idle := idle + [conn.(lastUsedAt := now)];
      Signal();
      return false;
    }

    method DiscardLocked()
      modifies this
      ensures State() == DiscardStep(old(State()))
      ensures old(numOpen) > 0 ==> numOpen == old(numOpen) - 1
      ensures old(numOpen) >= 0 ==> numOpen >= 0
    {
      if numOpen > 0 {
        numOpen := numOpen - 1;
      }
    }

    /** Close: returns the idle connections it closes. */
    method Close() returns (shut: seq<Conn>)
      modifies this
      ensures State() == CloseStep(old(State()))
      ensures shut == if old(closed) then [] else old(idle)
    {
      if closed {
        return [];
      }
      closed := true;
      shut := idle;
      idle := [];
      numOpen := numOpen - |shut|;
    }

    /** healthCheck: filters the idle list and dials until the minimum is reached or a dial
        fails; the first ok dials succeed and give the ids from, from + 1, ... */
    method HealthCheck(now: int, from: nat, ok: nat)
      modifies this
      ensures State() == HealthStep(old(State()), now, from, ok)
      ensures !closed ==> forall i :: 0 <= i < |idle| ==> Within(idle[i], cfg, now)
      ensures !closed ==>
                exists at: seq<nat> ::
                  && |at| <= |idle| && Picks(old(idle), at, idle[..|at|]) && PicksWithin(old(idle), at, cfg, now)
                  && (numOpen < cfg.min ==> |idle| == |at| + ok) && (|at| < |idle| ==> numOpen <= cfg.min)
    {
      hide Live, Picks, PicksWithin;
      if closed {
        return;
      }
      DropStale(now);
      ghost var at := LivePicks(old(idle), cfg, now);
      ghost var live := idle;
      PickedLength(old(idle), at, live);
      PickedWithin(old(idle), at, live, cfg, now);
      Replenish(now, from, ok);
      assert idle[..|at|] == live;
    }

    /** The filter over the idle list. */
    method DropStale(now: int)
      modifies this`idle, this`numOpen
      ensures idle == Live(old(idle), cfg, now) && numOpen == old(numOpen) - (|old(idle)| - |idle|)
    {
      var alive: seq<Conn> := [];
      for i := 0 to |idle|
        invariant idle == old(idle) && alive + Live(idle[i..], cfg, now) == Live(idle, cfg, now)
        invariant numOpen == old(numOpen) - (i - |alive|)
      {
        if Stale(idle[i], cfg, now) {
          numOpen := numOpen - 1;
        } else {
          alive := alive + [idle[i]];
        }
      }
      idle := alive;
    }

    /** Dials up to the minimum. */
    method Replenish(now: int, from: nat, ok: nat)
      modifies this`idle, this`numOpen
      ensures numOpen == old(numOpen) + Shortfall(old(numOpen), cfg.min, ok)
      ensures idle == old(idle) + FreshConns(from, Shortfall(old(numOpen), cfg.min, ok), now)
    {
      var k := 0;
      while numOpen < cfg.min && k < ok
        invariant idle == old(idle) + FreshConns(from, k, now) && numOpen == old(numOpen) + k
        invariant k == 0 || (k <= ok && numOpen <= cfg.min)
      {
        assert FreshConns(from, k + 1, now) == FreshConns(from, k, now) + [Conn(from + k, now, now)];
        idle := idle + [Conn(from + k, now, now)];
        numOpen := numOpen + 1;
        k := k + 1;
      }
    }
  }
}
