/** The guarantees of transaction pooling, read off the invariant over whole runs. */
module PoolingTheorems {
  import opened Wrappers
  import opened ConnPool
  import opened Proxy
  import opened Pooling
  import TxState

  /** A state some run leads to. */
  ghost predicate Reachable(st: State) {
    exists cfg: Config, now: int, steps: seq<Step> :: cfg.min <= cfg.max && st == Run(Initial(cfg, now), steps)
  }

  lemma ReachableInv(st: State)
    requires Reachable(st)
    ensures Inv(st)
  {
    var cfg: Config, now: int, steps: seq<Step> :| cfg.min <= cfg.max && st == Run(Initial(cfg, now), steps);
    InitialInv(cfg, now);
    RunKeepsInv(Initial(cfg, now), steps);
  }

  // ---------------------------------------------------------------- mutual exclusion

  /** Two sessions that both count for n push the total to two. */
  lemma {:induction false} TwoInTotal(k: Tally, ss: seq<Session>, i: nat, j: nat, n: nat)
    requires i < j < |ss|
    ensures Total(k, ss, n) >= Weight(k, ss[i], n) + Weight(k, ss[j], n)
  {
    hide Weight;
    var m := |ss| - 1;
    if j == m {
      assert ss[..m][i] == ss[i];
      TotalUpdate(k, ss[..m], i, ss[i], n);
    } else {
      TwoInTotal(k, ss[..m], i, j, n);
    }
  }

  lemma {:induction false} CountHas(conns: seq<Conn>, i: nat, c: nat)
    requires i < |conns| && conns[i].id == c
    ensures Count(conns, c) >= 1
  {
    if i < |conns| - 1 {
      CountHas(conns[..|conns| - 1], i, c);
    }
  }

  lemma {:induction false} CountTwice(conns: seq<Conn>, i: nat, j: nat, c: nat)
    requires i < j < |conns| && conns[i].id == c && conns[j].id == c
    ensures Count(conns, c) >= 2
  {
    if j == |conns| - 1 {
      CountHas(conns[..|conns| - 1], i, c);
    } else {
      CountTwice(conns[..|conns| - 1], i, j, c);
    }
  }

  lemma {:induction false} TwoPools(pools: seq<PoolState>, p: nat, q: nat, c: nat)
    requires p < q < |pools|
    ensures IdleTotal(pools, c) >= Count(pools[p].idle, c) + Count(pools[q].idle, c)
  {
    hide Count;
    var m := |pools| - 1;
    if q == m {
      assert pools[..m][p] == pools[p];
      IdleUpdate(pools[..m], p, pools[p], c);
    } else {
      TwoPools(pools[..m], p, q, c);
    }
  }

  lemma {:induction false} SomeHolder(ss: seq<Session>, c: nat) returns (i: nat)
    requires Total(Holders, ss, c) > 0
    ensures i < |ss| && Held(ss[i]).Some? && Held(ss[i]).value.conn.id == c
  {
    if Weight(Holders, ss[|ss| - 1], c) > 0 {
      i := |ss| - 1;
    } else {
      i := SomeHolder(ss[..|ss| - 1], c);
    }
  }

  lemma {:induction false} SomeCount(conns: seq<Conn>, c: nat) returns (i: nat)
    requires Count(conns, c) > 0
    ensures i < |conns| && conns[i].id == c
  {
    if conns[|conns| - 1].id == c {
      i := |conns| - 1;
    } else {
      i := SomeCount(conns[..|conns| - 1], c);
    }
  }

  lemma {:induction false} SomeIdle(pools: seq<PoolState>, c: nat) returns (p: nat, i: nat)
    requires IdleTotal(pools, c) > 0
    ensures p < |pools| && i < |pools[p].idle| && pools[p].idle[i].id == c
  {
    hide Count;
    if Count(pools[|pools| - 1].idle, c) > 0 {
      p := |pools| - 1;
      i := SomeCount(pools[p].idle, c);
    } else {
      p, i := SomeIdle(pools[..|pools| - 1], c);
    }
  }

  predicate Holds(st: State, i: nat, c: nat) {
    i < |st.sessions| && Held(st.sessions[i]).Some? && Held(st.sessions[i]).value.conn.id == c
  }

  predicate IdleAt(st: State, p: nat, i: nat, c: nat) {
    p < |st.pools| && i < |st.pools[p].idle| && st.pools[p].idle[i].id == c
  }

  predicate ShutAt(st: State, i: nat, c: nat) {
    i < |st.shut| && st.shut[i].id == c
  }

  lemma HolderCounts(st: State, i: nat, c: nat)
    requires Holds(st, i, c)
    ensures Total(Holders, st.sessions, c) >= 1
  {
    TotalUpdate(Holders, st.sessions, i, st.sessions[i], c);
  }

  lemma IdleCounts(st: State, p: nat, i: nat, c: nat)
    requires IdleAt(st, p, i, c)
    ensures IdleTotal(st.pools, c) >= 1
  {
    CountHas(st.pools[p].idle, i, c);
    IdleUpdate(st.pools, p, st.pools[p], c);
  }

  /** In every reachable state a connection held by a session is held by no other session, is
      idle in no pool and has not been closed. */
  lemma HeldExclusively(st: State, i: nat, c: nat)
    requires Reachable(st) && Holds(st, i, c)
    ensures forall j: nat :: Holds(st, j, c) ==> j == i
    ensures forall p: nat, k: nat :: !IdleAt(st, p, k, c)
    ensures forall k: nat :: !ShutAt(st, k, c)
    ensures c < st.nextConn
  {
    hide Inv, Count, Total, IdleTotal, Reachable;
    ReachableInv(st);
    PlacesIs(st, c);
    HolderCounts(st, i, c);
    forall j: nat | Holds(st, j, c) ensures j == i {
      if j < i {
        TwoInTotal(Holders, st.sessions, j, i, c);
      } else if i < j {
        TwoInTotal(Holders, st.sessions, i, j, c);
      }
    }
    forall p: nat, k: nat ensures !IdleAt(st, p, k, c) {
      if IdleAt(st, p, k, c) {
        IdleCounts(st, p, k, c);
      }
    }
    forall k: nat ensures !ShutAt(st, k, c) {
      if ShutAt(st, k, c) {
        CountHas(st.shut, k, c);
      }
    }
  }

  lemma PlacesIs(st: State, c: nat)
    requires Inv(st)
    ensures IdleTotal(st.pools, c) + Total(Holders, st.sessions, c) + Count(st.shut, c) == if c < st.nextConn then 1 else 0
  {
    assert Places(st, c) == if c < st.nextConn then 1 else 0;
  }

  /** Every connection ever made is somewhere: held, idle or closed; it sits idle at one place at
      most, is never idle once closed, and is closed once at most. */
  lemma NothingLost(st: State, c: nat)
    requires Reachable(st) && c < st.nextConn
    ensures (exists i: nat :: Holds(st, i, c)) || (exists p: nat, i: nat :: IdleAt(st, p, i, c)) || (exists i: nat :: ShutAt(st, i, c))
    ensures forall p: nat, i: nat, q: nat, j: nat :: IdleAt(st, p, i, c) && IdleAt(st, q, j, c) ==> p == q && i == j
    ensures forall p: nat, i: nat, j: nat :: !(IdleAt(st, p, i, c) && ShutAt(st, j, c))
    ensures forall i: nat, j: nat :: ShutAt(st, i, c) && ShutAt(st, j, c) ==> i == j
  {
    hide Inv, Count, Total, IdleTotal, Reachable;
    ReachableInv(st);
    PlacesIs(st, c);
    if Total(Holders, st.sessions, c) > 0 {
      var i := SomeHolder(st.sessions, c);
      assert Holds(st, i, c);
    } else if IdleTotal(st.pools, c) > 0 {
      var p, i := SomeIdle(st.pools, c);
      assert IdleAt(st, p, i, c);
    } else {
      var i := SomeCount(st.shut, c);
      assert ShutAt(st, i, c);
    }
    IdleOnce(st, c);
    ShutOnce(st, c);
  }

  lemma IdleOnce(st: State, c: nat)
    requires IdleTotal(st.pools, c) + Count(st.shut, c) <= 1
    ensures forall p: nat, i: nat, q: nat, j: nat :: IdleAt(st, p, i, c) && IdleAt(st, q, j, c) ==> p == q && i == j
    ensures forall p: nat, i: nat, j: nat :: !(IdleAt(st, p, i, c) && ShutAt(st, j, c))
  {
    hide Count, IdleTotal;
    forall p: nat, i: nat, q: nat, j: nat | IdleAt(st, p, i, c) && IdleAt(st, q, j, c) ensures p == q && i == j {
      CountHas(st.pools[p].idle, i, c);
      CountHas(st.pools[q].idle, j, c);
      IdleUpdate(st.pools, p, st.pools[p], c);
      if p < q {
        TwoPools(st.pools, p, q, c);
      } else if q < p {
        TwoPools(st.pools, q, p, c);
      } else if i < j {
        CountTwice(st.pools[p].idle, i, j, c);
      } else if j < i {
        CountTwice(st.pools[p].idle, j, i, c);
      }
    }
    forall p: nat, i: nat, j: nat ensures !(IdleAt(st, p, i, c) && ShutAt(st, j, c)) {
      if IdleAt(st, p, i, c) {
        IdleCounts(st, p, i, c);
      }
      if ShutAt(st, j, c) {
        CountHas(st.shut, j, c);
      }
    }
  }

  lemma ShutOnce(st: State, c: nat)
    requires Count(st.shut, c) <= 1
    ensures forall i: nat, j: nat :: ShutAt(st, i, c) && ShutAt(st, j, c) ==> i == j
  {
    forall i: nat, j: nat | ShutAt(st, i, c) && ShutAt(st, j, c) ensures i == j {
      if i < j {
        CountTwice(st.shut, i, j, c);
      } else if j < i {
        CountTwice(st.shut, j, i, c);
      }
    }
  }

  // ---------------------------------------------------------------- pinned transactions

  /** The session is in a transaction in every state of the run, and the client does not leave. */
  ghost predicate InTxThroughout(st: State, steps: seq<Step>, sid: nat)
    decreases |steps|
  {
    && sid < |st.sessions| && InTx(st.sessions[sid])
    && (steps != [] ==> InTxThroughout(Apply(st, steps[0]), steps[1..], sid))
  }

  predicate InTx(s: Session) {
    s.inTx && !s.pc.Ended? && !s.pc.Signalling?
  }

  /** No step unbinds the writer of a session that stays in its transaction. */
  lemma StaysBound(st: State, step: Step, sid: nat)
    requires Inv(st) && sid < |st.sessions| && st.sessions[sid].bound.Some?
    requires sid < |Apply(st, step).sessions| && InTx(Apply(st, step).sessions[sid])
    ensures Apply(st, step).sessions[sid].bound.Some?
  {
    hide Inv;
    InvSession(st, sid);
    if step.Act? && step.sid == sid {
      ActionStaysBound(st, sid, step.action);
    } else if step.Act? && step.sid < |st.sessions| {
      OtherSessionSame(st, step.sid, step.action, sid);
    }
  }

  lemma ActionStaysBound(st: State, sid: nat, action: Action)
    requires sid < |st.sessions| && LoopOk(st.sessions[sid]) && st.sessions[sid].bound.Some?
    ensures var s' := ApplyAction(st, sid, action).sessions[sid]; InTx(s') ==> s'.bound.Some?
  {
    hide HistoryOk, TxState.TxAfter, TxState.RouteOf, TxState.IsSessionModifying, AcquireStep;
    match action
    case Query(_, _, _, _) => case TryLock(_) => case DialOk(_) => case DialErr => case Receive => case GiveUp =>
    case Finish(_, _, _) => case SignalDone => case Leave(_, _) =>
  }

  /** No single step swaps the bound writer of a session for another. */
  lemma BoundStable(st: State, step: Step, sid: nat)
    requires Inv(st) && sid < |st.sessions| && st.sessions[sid].bound.Some?
    requires sid < |Apply(st, step).sessions| && Apply(st, step).sessions[sid].bound.Some?
    ensures Apply(st, step).sessions[sid].bound == st.sessions[sid].bound
  {
    hide Inv;
    InvSession(st, sid);
    if step.Act? && step.sid == sid {
      ActionBoundStable(st, sid, step.action);
    } else if step.Act? && step.sid < |st.sessions| {
      OtherSessionSame(st, step.sid, step.action, sid);
    }
  }

  lemma ActionBoundStable(st: State, sid: nat, action: Action)
    requires sid < |st.sessions| && LoopOk(st.sessions[sid]) && st.sessions[sid].bound.Some?
    ensures var s' := ApplyAction(st, sid, action).sessions[sid];
            s'.bound.Some? ==> s'.bound == st.sessions[sid].bound
  {
    hide HistoryOk, TxState.TxAfter, TxState.RouteOf, TxState.IsSessionModifying, AcquireStep;
    match action
    case Query(_, _, _, _) => case TryLock(_) => case DialOk(_) => case DialErr => case Receive => case GiveUp =>
    case Finish(_, _, _) => case SignalDone => case Leave(_, _) =>
  }

  /** Only session sid differs. */
  predicate OnlySession(st: State, st': State, sid: nat) {
    sid < |st.sessions| == |st'.sessions| && forall j :: 0 <= j < |st.sessions| && j != sid ==> st'.sessions[j] == st.sessions[j]
  }

  lemma GiveBackOnly(st: State, sid: nat, s: Session, loan: Loan, how: How, good: bool, after: After, now: int)
    requires sid < |st.sessions| && loan.pool < |st.pools|
    ensures OnlySession(st, GiveBack(st, sid, s, loan, how, good, after, now), sid)
  {}

  lemma FinishOnly(st: State, sid: nat, outcome: Outcome, resetOk: bool, now: int)
    requires sid < |st.sessions|
    ensures OnlySession(st, ApplyFinish(st, sid, outcome, resetOk, now), sid)
  {
    hide GiveBack, HowClean, Marked;
    forall s: Session, loan: Loan, how: How, good: bool, after: After | loan.pool < |st.pools|
      ensures OnlySession(st, GiveBack(st, sid, s, loan, how, good, after, now), sid)
    {
      GiveBackOnly(st, sid, s, loan, how, good, after, now);
    }
  }

  lemma LeaveOnly(st: State, sid: nat, resetOk: bool, now: int)
    requires sid < |st.sessions|
    ensures OnlySession(st, ApplyLeave(st, sid, resetOk, now), sid)
  {}

  /** An action of one session leaves all other sessions alone. */
  lemma OtherSessionSame(st: State, sid: nat, action: Action, other: nat)
    requires sid < |st.sessions| && other < |st.sessions| && other != sid
    ensures var st' := ApplyAction(st, sid, action);
            |st'.sessions| == |st.sessions| && st'.sessions[other] == st.sessions[other]
  {
    hide TxState.TxAfter, TxState.RouteOf, TxState.IsSessionModifying, AcquireStep, ApplyFinish, ApplyLeave;
    match action
    case Query(_, _, _, _) => case TryLock(_) => case DialOk(_) => case DialErr => case Receive => case GiveUp =>
    case Finish(outcome, resetOk, now) => FinishOnly(st, sid, outcome, resetOk, now);
    case SignalDone =>
    case Leave(resetOk, now) => LeaveOnly(st, sid, resetOk, now);
  }

  /** While a session stays in a transaction, every statement runs on the connection bound at its
      start, whatever other sessions, health checks and reloads do; and nobody else holds that
      connection. */
  lemma {:induction false} TransactionPinned(st: State, steps: seq<Step>, sid: nat)
    requires Reachable(st) && InTxThroughout(st, steps, sid) && st.sessions[sid].bound.Some?
    ensures var end := Run(st, steps);
            && sid < |end.sessions|
            && Held(end.sessions[sid]) == st.sessions[sid].bound
            && forall j: nat :: Holds(end, j, st.sessions[sid].bound.value.conn.id) ==> j == sid
    decreases |steps|
  {
    hide Inv, Apply, Reachable;
    ReachableInv(st);
    InvSession(st, sid);
    if steps == [] {
      HeldExclusively(st, sid, st.sessions[sid].bound.value.conn.id);
    } else {
      StaysBound(st, steps[0], sid);
      BoundStable(st, steps[0], sid);
      ReachableNext(st, steps[0]);
      TransactionPinned(Apply(st, steps[0]), steps[1..], sid);
    }
  }

  lemma ReachableNext(st: State, step: Step)
    requires Reachable(st)
    ensures Reachable(Apply(st, step))
  {
    hide Apply, Initial;
    var cfg: Config, now: int, steps: seq<Step> :| cfg.min <= cfg.max && st == Run(Initial(cfg, now), steps);
    RunAppend(Initial(cfg, now), steps, step);
    assert Apply(st, step) == Run(Initial(cfg, now), steps + [step]);
  }

  lemma {:induction false} RunAppend(st: State, steps: seq<Step>, step: Step)
    ensures Run(st, steps + [step]) == Apply(Run(st, steps), step)
    decreases |steps|
  {
    hide Apply;
    if steps == [] {
      assert [step][1..] == [];
    } else {
      assert (steps + [step])[1..] == steps[1..] + [step];
      RunAppend(Apply(st, steps[0]), steps[1..], step);
    }
  }

  // ---------------------------------------------------------------- sessions

  /** At the head of the loop a writer is bound exactly while the session is in a transaction,
      and only then can the borrow be dirty. */
  lemma LoopHead(st: State, sid: nat)
    requires Reachable(st) && sid < |st.sessions| && st.sessions[sid].pc.AtHead?
    ensures var s := st.sessions[sid]; (s.bound.Some? <==> s.inTx) && (s.dirty ==> s.bound.Some?)
  {
    ReachableInv(st);
    InvSession(st, sid);
  }

  /** Every borrow of a session but the open one was ended exactly once, on the pool that lent
      it; on the writer path it was reset exactly when it ran a session-modifying statement, on
      the reader path never. A session that has ended has no open borrow. */
  lemma BorrowsSettled(st: State, sid: nat, i: nat)
    requires Reachable(st) && sid < |st.sessions| && i < |st.sessions[sid].history|
    requires i < |st.sessions[sid].history| - 1 || st.sessions[sid].pc.Ended? || Held(st.sessions[sid]).None?
    ensures Settled(st.sessions[sid].history[i])
  {
    ReachableInv(st);
    InvSession(st, sid);
  }

  // ---------------------------------------------------------------- accounting

  /** In every reachable state a pool's open count is its idle connections plus those borrowed or
      being dialled, and never exceeds its maximum. */
  lemma Accounting(st: State, p: nat)
    requires Reachable(st) && p < |st.pools|
    ensures st.pools[p].numOpen == |st.pools[p].idle| + Total(Slots, st.sessions, p) <= st.pools[p].cfg.max
    ensures st.pools[p].closed ==> (st.pools[p].numOpen == 0 <==> Total(Slots, st.sessions, p) == 0)
  {
    ReachableInv(st);
    InvPool(st, p);
  }

  /** The guards against a negative open count never fire: whoever gives a connection back is
      still counted. */
  lemma ClampsNeverFire(st: State, sid: nat)
    requires Reachable(st) && sid < |st.sessions| && Held(st.sessions[sid]).Some?
    ensures var p := Held(st.sessions[sid]).value.pool; p < |st.pools| && st.pools[p].numOpen > 0
  {
    ReachableInv(st);
    InvSession(st, sid);
    var p := Held(st.sessions[sid]).value.pool;
    InvPool(st, p);
    TotalUpdate(Slots, st.sessions, sid, st.sessions[sid], p);
  }

  /** A closed pool stays closed and hands nothing out: what a session has from it after a step
      it had before. */
  lemma NoHandOutAfterClose(st: State, step: Step, p: nat, i: nat)
    requires Inv(st) && p < |st.pools| && st.pools[p].closed && i < |st.sessions|
    ensures var st' := Apply(st, step);
            && |st'.sessions| >= |st.sessions| && |st'.pools| >= |st.pools| && st'.pools[p].closed
            && NoNewLoan(st.sessions[i], st'.sessions[i], p)
  {
    hide Inv, ApplyAction, NoNewLoan;
    NoNewLoanSelf(st.sessions[i], p);
    if step.Act? && step.sid < |st.sessions| {
      InvSession(st, step.sid);
      ActionClosedPool(st, step.sid, step.action, p);
      if step.sid != i {
        OtherSessionSame(st, step.sid, step.action, i);
      }
    }
  }

  lemma NoNewLoanSelf(s: Session, p: nat)
    ensures NoNewLoan(s, s, p)
  {}

  lemma {:induction false} TotalShrinks(k: Tally, ss: seq<Session>, ss': seq<Session>, n: nat)
    requires |ss| <= |ss'|
    requires forall i :: 0 <= i < |ss| ==> Weight(k, ss'[i], n) <= Weight(k, ss[i], n)
    requires forall i :: |ss| <= i < |ss'| ==> Weight(k, ss'[i], n) == 0
    ensures Total(k, ss', n) <= Total(k, ss, n)
  {
    hide Weight;
    var m := |ss'| - 1;
    if |ss| < |ss'| {
      TotalShrinks(k, ss, ss'[..m], n);
    } else if ss != [] {
      TotalShrinks(k, ss[..m], ss'[..m], n);
    }
  }

  /** The open count of a closed pool never rises. */
  lemma ClosedPoolDrains(st: State, step: Step, p: nat)
    requires Reachable(st) && p < |st.pools| && st.pools[p].closed
    ensures var st' := Apply(st, step);
            p < |st'.pools| && st'.pools[p].closed && st'.pools[p].numOpen <= st.pools[p].numOpen
  {
    hide Inv, Apply, Reachable;
    ReachableInv(st);
    StepKeepsInv(st, step);
    var st' := Apply(st, step);
    InvPool(st, p);
    SessionsGrow(st, step);
    forall i | 0 <= i < |st.sessions| ensures Weight(Slots, st'.sessions[i], p) <= Weight(Slots, st.sessions[i], p) {
      NoHandOutAfterClose(st, step, p, i);
    }
    ClosedStays(st, step, p);
    InvPool(st', p);
    TotalShrinks(Slots, st.sessions, st'.sessions, p);
  }

  lemma ClosedStays(st: State, step: Step, p: nat)
    requires Inv(st) && p < |st.pools| && st.pools[p].closed
    ensures |Apply(st, step).pools| >= |st.pools| && Apply(st, step).pools[p].closed
  {
    hide Inv, ApplyAction, NoNewLoan;
    if step.Act? && step.sid < |st.sessions| {
      InvSession(st, step.sid);
      ActionClosedPool(st, step.sid, step.action, p);
    }
  }

  /** A step changes the list of sessions only by a new one at its end. */
  lemma SessionsGrow(st: State, step: Step)
    ensures var st' := Apply(st, step);
            && |st.sessions| <= |st'.sessions|
            && forall i :: |st.sessions| <= i < |st'.sessions| ==> st'.sessions[i] == NewSession()
  {
    hide ApplyAction;
    if step.Act? && step.sid < |st.sessions| {
      ActionSameSessions(st, step.sid, step.action);
    }
  }

  lemma ActionSameSessions(st: State, sid: nat, action: Action)
    requires sid < |st.sessions|
    ensures |ApplyAction(st, sid, action).sessions| == |st.sessions|
  {
    hide TxState.TxAfter, TxState.RouteOf, TxState.IsSessionModifying, AcquireStep;
    match action
    case Query(_, _, _, _) => case TryLock(_) => case DialOk(_) => case DialErr => case Receive => case GiveUp =>
    case Finish(_, _, _) => case SignalDone => case Leave(_, _) =>
  }

  lemma GiveBackClosedPool(st: State, sid: nat, s: Session, loan: Loan, how: How, good: bool, after: After, now: int, p: nat)
    requires sid < |st.sessions| && loan.pool < |st.pools| && p < |st.pools| && st.pools[p].closed
    ensures var st' := GiveBack(st, sid, s, loan, how, good, after, now);
            && |st'.pools| == |st.pools| && |st'.sessions| == |st.sessions| && st'.pools[p].closed
            && (s.bound.None? ==> Held(st'.sessions[sid]).None? && Weight(Slots, st'.sessions[sid], p) == 0)
  {}

  lemma FinishClosedPool(st: State, sid: nat, outcome: Outcome, resetOk: bool, now: int, p: nat)
    requires sid < |st.sessions| && p < |st.pools| && st.pools[p].closed && LoopOk(st.sessions[sid])
    ensures var st' := ApplyFinish(st, sid, outcome, resetOk, now);
            && |st'.pools| == |st.pools| && |st'.sessions| == |st.sessions| && st'.pools[p].closed
            && NoNewLoan(st.sessions[sid], st'.sessions[sid], p)
  {
    hide GiveBack;
    var s := st.sessions[sid];
    if s.pc.Executing? {
      var loan, job := s.pc.loan, s.pc.job;
      var s' := s.(history := Marked(s.history, job.text));
      var dirty := s.dirty || Modifying(job);
      if !job.kind.Write? && loan.pool < |st.pools| {
        var how := if outcome.Done? then Plain else Broken;
        var after := if outcome.Done? then ToHead
                     else if outcome.ForwardError? && job.kind.Read? then ToFallback(job)
                     else ToEnd;
        GiveBackClosedPool(st, sid, s', loan, how, outcome.Done?, after, now, p);
      } else if loan.pool < |st.pools| && job.was && !job.now {
        GiveBackClosedPool(st, sid, s'.(bound := None, dirty := false), loan, HowClean(dirty, resetOk), resetOk, ToHead, now, p);
      } else if loan.pool < |st.pools| && s.pc.acquired && !(!job.was && job.now) {
        GiveBackClosedPool(st, sid, s'.(dirty := false), loan, HowClean(dirty, resetOk), resetOk, ToHead, now, p);
      }
    }
  }

  /** Whatever s' has from pool p, s had already. */
  predicate NoNewLoan(s: Session, s': Session, p: nat) {
    && Weight(Slots, s', p) <= Weight(Slots, s, p)
    && (Held(s').Some? && Held(s').value.pool == p ==> Held(s) == Held(s'))
  }

  lemma ActionClosedPool(st: State, sid: nat, action: Action, p: nat)
    requires sid < |st.sessions| && p < |st.pools| && st.pools[p].closed && LoopOk(st.sessions[sid])
    ensures var st' := ApplyAction(st, sid, action);
            && |st'.pools| == |st.pools| && |st'.sessions| == |st.sessions| && st'.pools[p].closed
            && NoNewLoan(st.sessions[sid], st'.sessions[sid], p)
  {
    hide ApplyFinish, ApplyQuery, ApplyTryLock, ApplyDialOk, GiveBack;
    var s := st.sessions[sid];
    match action
    case Query(text, info, target, allowed) => QueryClosedPool(st, sid, text, info, target, allowed, p);
    case TryLock(now) => TryLockClosedPool(st, sid, now, p);
    case DialOk(now) => DialClosedPool(st, sid, now, p);
    case DialErr =>
    case Receive =>
    case GiveUp =>
    case Finish(outcome, resetOk, now) => FinishClosedPool(st, sid, outcome, resetOk, now, p);
    case SignalDone =>
    case Leave(resetOk, now) =>
      if s.pc.AtHead? && s.bound.Some? && s.bound.value.pool < |st.pools| {
        GiveBackClosedPool(st, sid, s.(bound := None, dirty := false), s.bound.value, HowClean(s.dirty, resetOk), resetOk, ToEnd, now, p);
      }
  }

  /** The shape of what one action does to a closed pool and to its own session. */
  ghost predicate ClosedKept(st: State, st': State, sid: nat, p: nat)
    requires sid < |st.sessions| && p < |st.pools|
  {
    && |st'.pools| == |st.pools| && |st'.sessions| == |st.sessions| && st'.pools[p].closed
    && NoNewLoan(st.sessions[sid], st'.sessions[sid], p)
  }

  lemma QueryClosedPool(st: State, sid: nat, text: string, info: TxState.RouteInput, target: Target, allowed: bool, p: nat)
    requires sid < |st.sessions| && p < |st.pools| && st.pools[p].closed && LoopOk(st.sessions[sid])
    ensures ClosedKept(st, ApplyQuery(st, sid, text, info, target, allowed), sid, p)
  {
    hide TxState.TxAfter, TxState.RouteOf, TxState.IsSessionModifying;
  }

  lemma TryLockClosedPool(st: State, sid: nat, now: int, p: nat)
    requires sid < |st.sessions| && p < |st.pools| && st.pools[p].closed && LoopOk(st.sessions[sid])
    ensures ClosedKept(st, ApplyTryLock(st, sid, now), sid, p)
  {
    hide LiveLen, Dropped;
  }

  lemma DialClosedPool(st: State, sid: nat, now: int, p: nat)
    requires sid < |st.sessions| && p < |st.pools| && st.pools[p].closed && LoopOk(st.sessions[sid])
    ensures ClosedKept(st, ApplyDialOk(st, sid, now), sid, p)
  {}

  // ---------------------------------------------------------------- wake-ups

  predicate IsDialErr(step: Step) {
    step.Act? && step.action.DialErr?
  }

  predicate NoDialErr(steps: seq<Step>) {
    forall i :: 0 <= i < |steps| ==> !IsDialErr(steps[i])
  }

  predicate AllZero(xs: seq<nat>) {
    forall i :: 0 <= i < |xs| ==> xs[i] == 0
  }

  lemma NoFailureStep(st: State, step: Step)
    requires AllZero(st.failedDials) && !IsDialErr(step)
    ensures AllZero(Apply(st, step).failedDials)
  {
    hide TxState.TxAfter, TxState.RouteOf, TxState.IsSessionModifying, AcquireStep, HealthStep;
    if step.Act? {
      match step.action
      case Query(_, _, _, _) => case TryLock(_) => case DialOk(_) => case Receive => case GiveUp =>
      case Finish(_, _, _) => case SignalDone => case Leave(_, _) =>
    }
  }

  lemma {:induction false} NoFailures(st: State, steps: seq<Step>)
    requires AllZero(st.failedDials) && NoDialErr(steps)
    ensures AllZero(Run(st, steps).failedDials)
    decreases |steps|
  {
    hide Apply;
    if steps != [] {
      NoFailureStep(st, steps[0]);
      NoFailures(Apply(st, steps[0]), steps[1..]);
    }
  }

  predicate WaitsOn(st: State, i: nat, p: nat) {
    i < |st.sessions| && p < |st.pools| && st.sessions[i].pc.Acquiring? && st.sessions[i].pc.pool == p && st.sessions[i].pc.stage.Waiting?
  }

  /** In every run whose dials succeed, while a session waits on an open pool there are at least as
      many wake-ups under way as free connections and slots. So a waiter nobody is about to wake
      finds the pool exhausted: no idle connection, and every slot borrowed or being dialled. */
  lemma NoLostWakeUp(cfg: Config, now: int, steps: seq<Step>, i: nat, p: nat)
    requires cfg.min <= cfg.max && NoDialErr(steps)
    requires var st := Run(Initial(cfg, now), steps); WaitsOn(st, i, p) && !st.pools[p].closed
    ensures var st := Run(Initial(cfg, now), steps);
            && Free(st.pools[p]) <= WakeUps(st, p)
            && (WakeUps(st, p) == 0 ==> st.pools[p].idle == [] && Total(Slots, st.sessions, p) == st.pools[p].cfg.max)
  {
    hide Run, Total;
    var st := Run(Initial(cfg, now), steps);
    InitialInv(cfg, now);
    RunKeepsInv(Initial(cfg, now), steps);
    NoFailures(Initial(cfg, now), steps);
    TotalUpdate(Waiters, st.sessions, i, st.sessions[i], p);
    assert Balanced(st, p) && Awake(st, p);
  }

  /** In every reachable state at all, while a session waits on an open pool the free connections and
      slots without a wake-up under way are at most the dials that have failed on the pool. */
  lemma WakeUpsLostToDialsOnly(st: State, i: nat, p: nat)
    requires Reachable(st) && WaitsOn(st, i, p) && !st.pools[p].closed
    ensures p < |st.failedDials| && Free(st.pools[p]) <= WakeUps(st, p) + st.failedDials[p]
  {
    hide Total;
    ReachableInv(st);
    TotalUpdate(Waiters, st.sessions, i, st.sessions[i], p);
    assert Balanced(st, p) && Awake(st, p);
  }

  /** A failed dial keeps the bound exactly when nobody waits on the pool or a wake-up was to
      spare: it frees a slot and tells no one. */
  lemma DialErrorExact(st: State, sid: nat)
    requires Inv(st) && sid < |st.sessions| && IsAt(st, sid, Dialing)
    ensures var p, st' := st.sessions[sid].pc.pool, ApplyDialErr(st, sid);
            (Total(Waiters, st'.sessions, p) > 0 ==> Free(st'.pools[p]) <= WakeUps(st', p))
            <==> Total(Waiters, st.sessions, p) == 0 || Free(st.pools[p]) < WakeUps(st, p)
  {
    hide Inv, Total;
    var p, st' := st.sessions[sid].pc.pool, ApplyDialErr(st, sid);
    InvSession(st, sid);
    TotalUpdate(Waiters, st.sessions, sid, st'.sessions[sid], p);
    TotalUpdate(Wakers, st.sessions, sid, st'.sessions[sid], p);
    TotalUpdate(Signals, st.sessions, sid, st'.sessions[sid], p);
  }

  /** A pool of one: the first session dials, the second waits, the dial fails. The second is left
      waiting although a slot is free and no wake-up is under way. */
  function StrandingRun(): seq<Step> {
    var write := Query("", TxState.RouteInput(true, false, false), NoReader, true);
    [Connect, Connect, Act(0, write), Act(0, TryLock(0)), Act(1, write), Act(1, TryLock(0)), Act(0, DialErr)]
  }

  lemma DialErrorStrandsWaiter()
    ensures var st := Run(Initial(Config(0, 1, 0, 0), 0), StrandingRun());
            && WaitsOn(st, 1, 0) && !st.pools[0].closed && Free(st.pools[0]) == 1 && st.pools[0].tokens == 0
            && forall i :: 0 <= i < |st.sessions| ==> !st.sessions[i].pc.Signalling? && WaitsOn(st, i, 0) == (i == 1)
  {
    hide Run, Apply;
    var s0, r := Initial(Config(0, 1, 0, 0), 0), StrandingRun();
    RunSeven(s0, r);
    FirstDials(s0, r);
    SecondStranded(Apply(Apply(Apply(Apply(s0, r[0]), r[1]), r[2]), r[3]), r);
  }

  /** One session dials on the only slot, the other is new. */
  predicate OneDialling(st: State) {
    && st.pools == [PoolState(Config(0, 1, 0, 0), [], 1, 0, false)] && st.failedDials == [0] && st.writer == 0
    && |st.sessions| == 2 && st.sessions[1] == NewSession()
    && var pc := st.sessions[0].pc; pc.Acquiring? && pc.pool == 0 && pc.stage.Dialing? && pc.job.kind.Write?
  }

  lemma FirstDials(s0: State, r: seq<Step>)
    requires s0 == Initial(Config(0, 1, 0, 0), 0) && r == StrandingRun()
    ensures OneDialling(Apply(Apply(Apply(Apply(s0, r[0]), r[1]), r[2]), r[3]))
  {
    hide TxState.TxAfter, TxState.IsSessionModifying, TxState.Pinned;
    var s2 := Apply(Apply(s0, r[0]), r[1]);
    assert s2.sessions == [NewSession(), NewSession()];
    var s3 := Apply(s2, r[2]);
    assert s3.sessions[0].pc.stage == Fresh && s3.sessions[0].pc.job.kind.Write?;
  }

  lemma SecondStranded(s4: State, r: seq<Step>)
    requires OneDialling(s4) && r == StrandingRun()
    ensures var st := Apply(Apply(Apply(s4, r[4]), r[5]), r[6]);
            && WaitsOn(st, 1, 0) && !st.pools[0].closed && Free(st.pools[0]) == 1 && st.pools[0].tokens == 0
            && forall i :: 0 <= i < |st.sessions| ==> !st.sessions[i].pc.Signalling? && WaitsOn(st, i, 0) == (i == 1)
  {
    hide TxState.TxAfter, TxState.IsSessionModifying, TxState.Pinned;
    var s5 := Apply(s4, r[4]);
    assert s5.sessions[1].pc.stage == Fresh && s5.sessions[0] == s4.sessions[0];
    var s6 := Apply(s5, r[5]);
    assert s6.sessions[1].pc.stage == Waiting && s6.sessions[0] == s4.sessions[0];
  }

  lemma RunSeven(st: State, r: seq<Step>)
    requires |r| == 7
    ensures Run(st, r) == Apply(Apply(Apply(Apply(Apply(Apply(Apply(st, r[0]), r[1]), r[2]), r[3]), r[4]), r[5]), r[6])
  {
    hide Apply;
    RunAppend(st, r[..6], r[6]);
    RunAppend(st, r[..5], r[5]);
    RunAppend(st, r[..4], r[4]);
    RunAppend(st, r[..3], r[3]);
    RunAppend(st, r[..2], r[2]);
    RunAppend(st, r[..1], r[1]);
    RunAppend(st, r[..0], r[0]);
    assert r[..6] + [r[6]] == r && r[..5] + [r[5]] == r[..6] && r[..4] + [r[4]] == r[..5] && r[..3] + [r[3]] == r[..4];
    assert r[..2] + [r[2]] == r[..3] && r[..1] + [r[1]] == r[..2] && r[..0] + [r[0]] == r[..1];
  }
}
