/** How borrows end: what becomes of the connection a session gives back, over every step of the
    transaction-pooling machine, and what a closed connection can no longer do. */
module Borrows {
  import opened Wrappers
  import opened ConnPool
  import opened Proxy
  import opened Pooling
  import opened PoolingTheorems
  import TxState

  // ---------------------------------------------------------------- the connection of an ended borrow

  /** What a step does with connection conn lent by pool p: it is closed, or it becomes the last idle
      connection of the pool, last used now. Idle lists of other pools stay. */
  predicate ClosesConn(st: State, st': State, p: nat, conn: Conn) {
    && p < |st.pools| == |st'.pools| && st'.shut == st.shut + [conn]
    && forall q :: 0 <= q < |st.pools| ==> st'.pools[q].idle == st.pools[q].idle
  }

  predicate KeepsConn(st: State, st': State, p: nat, conn: Conn, now: int) {
    && p < |st.pools| == |st'.pools| && st'.shut == st.shut
    && st'.pools[p].idle == st.pools[p].idle + [Conn(conn.id, conn.createdAt, now)]
    && forall q :: 0 <= q < |st.pools| && q != p ==> st'.pools[q].idle == st.pools[q].idle
  }

  lemma ReleaseDoes(st: State, sid: nat, s: Session, loan: Loan, how: How, good: bool, after: After, now: int)
    requires sid < |st.sessions| && loan.pool < |st.pools| && (how.Plain? || how.Reset?)
    ensures var st' := GiveBack(st, sid, s, loan, how, good, after, now);
            && (if st.pools[loan.pool].closed then ClosesConn(st, st', loan.pool, loan.conn)
                else KeepsConn(st, st', loan.pool, loan.conn, now))
            && st'.sessions[sid].history == Returned(s.history, Return(loan.pool, how, good))
  {}

  lemma DiscardDoes(st: State, sid: nat, s: Session, loan: Loan, how: How, good: bool, after: After, now: int)
    requires sid < |st.sessions| && loan.pool < |st.pools| && (how.ResetFailed? || how.Broken?)
    ensures var st' := GiveBack(st, sid, s, loan, how, good, after, now);
            && ClosesConn(st, st', loan.pool, loan.conn)
            && st'.sessions[sid].history == Returned(s.history, Return(loan.pool, how, good))
  {}

  /** The session after an action. */
  function SessionAfter(st: State, sid: nat, action: Action): Session
    requires sid < |st.sessions|
  {
    var st' := ApplyAction(st, sid, action);
    if sid < |st'.sessions| then st'.sessions[sid] else st.sessions[sid]
  }

  /** Session sid holds a connection before the step and none after it. */
  predicate EndsBorrow(st: State, step: Step, sid: nat) {
    && sid < |st.sessions| && Held(st.sessions[sid]).Some?
    && sid < |Apply(st, step).sessions| && Held(Apply(st, step).sessions[sid]).None?
  }

  /** Only the end of a statement and the end of the session end a borrow. */
  lemma EndedBy(st: State, step: Step, sid: nat)
    requires Inv(st) && EndsBorrow(st, step, sid)
    ensures step.Act? && step.sid == sid
    ensures if st.sessions[sid].pc.Executing? then step.action.Finish? else st.sessions[sid].pc.AtHead? && step.action.Leave?
  {
    hide Inv;
    InvSession(st, sid);
    if step.Act? && step.sid < |st.sessions| {
      if step.sid == sid {
        ActionEnds(st, sid, step.action);
      } else {
        OtherSessionSame(st, step.sid, step.action, sid);
      }
    }
  }

  lemma ActionEnds(st: State, sid: nat, action: Action)
    requires sid < |st.sessions| && LoopOk(st.sessions[sid]) && Held(st.sessions[sid]).Some?
    requires Held(SessionAfter(st, sid, action)).None?
    ensures if st.sessions[sid].pc.Executing? then action.Finish? else st.sessions[sid].pc.AtHead? && action.Leave?
  {
    hide TxState.TxAfter, TxState.RouteOf, AcquireStep;
    if action.Query? && st.sessions[sid].pc.AtHead? {
      ReaderOutsideTx(st.sessions[sid].inTx, action.text, action.info);
    }
  }

  /** The borrow as it stands when the step has ended it. */
  function EndedBorrow(st: State, step: Step, sid: nat): Borrow
    requires EndsBorrow(st, step, sid) && Apply(st, step).sessions[sid].history != []
  {
    var h := Apply(st, step).sessions[sid].history;
    h[|h| - 1]
  }

  /** The connection is not fit to be lent again: on the writer path a session-modifying statement ran
      on it and its reset failed; on the reader path a statement could not be forwarded or relayed. */
  predicate Unfit(b: Borrow, action: Action) {
    if b.kind.Write? then Modified(b) && (if action.Finish? then !action.resetOk else action.Leave? && !action.resetOk)
    else action.Finish? && !action.outcome.Done?
  }

  function When(action: Action): int {
    if action.Finish? || action.Leave? then action.now else 0
  }

  /** Over every step of every run that ends a borrow: an unfit connection is closed and no pool gets
      it; any other becomes idle in the pool that lent it, unless that pool has been closed. */
  lemma BorrowEnds(st: State, step: Step, sid: nat)
    requires Reachable(st) && EndsBorrow(st, step, sid)
    ensures step.Act? && (step.action.Finish? || step.action.Leave?) && Apply(st, step).sessions[sid].history != []
    ensures var st', b, loan := Apply(st, step), EndedBorrow(st, step, sid), Held(st.sessions[sid]).value;
            && b.loan == loan && loan.pool < |st.pools|
            && (if Unfit(b, step.action) || st.pools[loan.pool].closed then ClosesConn(st, st', loan.pool, loan.conn)
                else KeepsConn(st, st', loan.pool, loan.conn, When(step.action)))
  {
    hide Inv, Reachable, Apply, ClosesConn, KeepsConn, ApplyFinish, ApplyLeave, LoopOk, HistoryOk, Modified;
    ReachableInv(st);
    InvSession(st, sid);
    EndedBy(st, step, sid);
    StepIs(st, sid, step.action);
    if st.sessions[sid].pc.AtHead? {
      LeaveEnds(st, sid, step.action.resetOk, step.action.now);
    } else if st.sessions[sid].pc.job.kind.Write? {
      WriteEnds(st, sid, step.action.outcome, step.action.resetOk, step.action.now);
    } else {
      ReadEnds(st, sid, step.action.outcome, step.action.resetOk, step.action.now);
    }
  }

  lemma StepIs(st: State, sid: nat, action: Action)
    requires sid < |st.sessions|
    ensures action.Finish? ==>
              Apply(st, Act(sid, action)) == ApplyFinish(st, sid, action.outcome, action.resetOk, action.now)
    ensures action.Leave? ==> Apply(st, Act(sid, action)) == ApplyLeave(st, sid, action.resetOk, action.now)
  {
    hide ApplyFinish, ApplyLeave;
  }

  lemma LeaveEnds(st: State, sid: nat, resetOk: bool, now: int)
    requires sid < |st.sessions| && st.sessions[sid].pc.AtHead? && st.sessions[sid].bound.Some?
    requires LoopOk(st.sessions[sid]) && HistoryOk(st.sessions[sid]) && Scoped(st, st.sessions[sid])
    ensures var s, st' := st.sessions[sid], ApplyLeave(st, sid, resetOk, now);
            var h, loan := st'.sessions[sid].history, s.bound.value;
            && h != [] && h[|h| - 1].loan == loan && h[|h| - 1].kind.Write?
            && (if (Modified(h[|h| - 1]) && !resetOk) || st.pools[loan.pool].closed then ClosesConn(st, st', loan.pool, loan.conn)
                else KeepsConn(st, st', loan.pool, loan.conn, now))
  {
    hide GiveBack, ClosesConn, KeepsConn, TxState.IsSessionModifying;
    var s := st.sessions[sid];
    var t := s.(bound := None, dirty := false);
    GivesBack(st, sid, t, s.bound.value, HowClean(s.dirty, resetOk), resetOk, ToEnd, now);
  }

  /** Both ways to give a connection back. */
  lemma GivesBack(st: State, sid: nat, s: Session, loan: Loan, how: How, good: bool, after: After, now: int)
    requires sid < |st.sessions| && loan.pool < |st.pools|
    ensures var st' := GiveBack(st, sid, s, loan, how, good, after, now);
            && (if how.ResetFailed? || how.Broken? || st.pools[loan.pool].closed then ClosesConn(st, st', loan.pool, loan.conn)
                else KeepsConn(st, st', loan.pool, loan.conn, now))
            && st'.sessions[sid].history == Returned(s.history, Return(loan.pool, how, good))
  {
    hide GiveBack, ClosesConn, KeepsConn;
    if how.Plain? || how.Reset? {
      ReleaseDoes(st, sid, s, loan, how, good, after, now);
    } else {
      DiscardDoes(st, sid, s, loan, how, good, after, now);
    }
  }

  lemma WriteEnds(st: State, sid: nat, outcome: Outcome, resetOk: bool, now: int)
    requires sid < |st.sessions| && st.sessions[sid].pc.Executing? && st.sessions[sid].pc.job.kind.Write?
    requires LoopOk(st.sessions[sid]) && HistoryOk(st.sessions[sid]) && Scoped(st, st.sessions[sid])
    requires Held(ApplyFinish(st, sid, outcome, resetOk, now).sessions[sid]).None?
    ensures var s, st' := st.sessions[sid], ApplyFinish(st, sid, outcome, resetOk, now);
            var h, loan := st'.sessions[sid].history, s.pc.loan;
            && h != [] && h[|h| - 1].loan == loan && h[|h| - 1].kind.Write?
            && (if (Modified(h[|h| - 1]) && !resetOk) || st.pools[loan.pool].closed then ClosesConn(st, st', loan.pool, loan.conn)
                else KeepsConn(st, st', loan.pool, loan.conn, now))
  {
    hide GiveBack, ClosesConn, KeepsConn, TxState.IsSessionModifying, Marked, Modified;
    var s := st.sessions[sid];
    var Executing(job, loan, acquired) := s.pc;
    var dirty := s.dirty || Modifying(job);
    var s' := s.(history := Marked(s.history, job.text));
    MarkedIs(s.history, job.text);
    NothingRan(s.history[|s.history| - 1]);
    var how := HowClean(dirty, resetOk);
    if job.was && !job.now {
      GivesBack(st, sid, s'.(bound := None, dirty := false), loan, how, resetOk, ToHead, now);
      SameModified(s'.history, Return(loan.pool, how, resetOk));
    } else if acquired && !(!job.was && job.now) {
      GivesBack(st, sid, s'.(dirty := false), loan, how, resetOk, ToHead, now);
      SameModified(s'.history, Return(loan.pool, how, resetOk));
    }
  }

  lemma NothingRan(b: Borrow)
    ensures b.ran == [] ==> !Modified(b)
  {}

  lemma SameModified(h: seq<Borrow>, r: Return)
    requires h != []
    ensures var h' := Returned(h, r); var n := |h| - 1;
            |h'| == |h| && h'[n].loan == h[n].loan && h'[n].kind == h[n].kind && (Modified(h'[n]) <==> Modified(h[n]))
  {}

  lemma ReadEnds(st: State, sid: nat, outcome: Outcome, resetOk: bool, now: int)
    requires sid < |st.sessions| && st.sessions[sid].pc.Executing? && !st.sessions[sid].pc.job.kind.Write?
    requires LoopOk(st.sessions[sid]) && HistoryOk(st.sessions[sid]) && Scoped(st, st.sessions[sid])
    ensures var s, st' := st.sessions[sid], ApplyFinish(st, sid, outcome, resetOk, now);
            var h, loan := st'.sessions[sid].history, s.pc.loan;
            && h != [] && h[|h| - 1].loan == loan && !h[|h| - 1].kind.Write?
            && (if !outcome.Done? || st.pools[loan.pool].closed then ClosesConn(st, st', loan.pool, loan.conn)
                else KeepsConn(st, st', loan.pool, loan.conn, now))
  {
    hide GiveBack, ClosesConn, KeepsConn, TxState.IsSessionModifying, Marked, Modified;
    var s := st.sessions[sid];
    var s' := s.(history := Marked(s.history, s.pc.job.text));
    MarkedIs(s.history, s.pc.job.text);
    var how := if outcome.Done? then Plain else Broken;
    var after := if outcome.Done? then ToHead
                 else if outcome.ForwardError? && s.pc.job.kind.Read? then ToFallback(s.pc.job)
                 else ToEnd;
    GivesBack(st, sid, s', s.pc.loan, how, outcome.Done?, after, now);
    SameModified(s'.history, Return(s.pc.loan.pool, how, outcome.Done?));
  }

  // ---------------------------------------------------------------- the connection of a new borrow

  /** Over every step by which a session comes to hold a connection: it is a newly dialled one, or one
      that was idle in the pool, within the maximum lifetime since its creation and within the idle
      timeout since its last use. */
  lemma BorrowStarts(st: State, step: Step, sid: nat)
    requires Inv(st) && sid < |st.sessions| && Held(st.sessions[sid]).None?
    requires sid < |Apply(st, step).sessions| && Held(Apply(st, step).sessions[sid]).Some?
    ensures step.Act? && step.sid == sid && (step.action.TryLock? || step.action.DialOk?)
    ensures var Loan(conn, p), now := Held(Apply(st, step).sessions[sid]).value, LockTime(step.action);
            && p < |st.pools| && !st.pools[p].closed
            && (step.action.DialOk? ==> conn == Conn(st.nextConn, step.action.now, step.action.now))
            && (step.action.TryLock? ==>
                  exists i :: && 0 <= i < |st.pools[p].idle| && Within(st.pools[p].idle[i], st.pools[p].cfg, now)
                              && conn == Conn(st.pools[p].idle[i].id, st.pools[p].idle[i].createdAt, now))
  {
    hide Inv;
    InvSession(st, sid);
    if step.Act? && step.sid < |st.sessions| {
      if step.sid == sid {
        ActionStarts(st, sid, step.action);
      } else {
        OtherSessionSame(st, step.sid, step.action, sid);
      }
    }
  }

  function LockTime(action: Action): int {
    if action.TryLock? then action.now else 0
  }

  lemma ActionStarts(st: State, sid: nat, action: Action)
    requires sid < |st.sessions| && LoopOk(st.sessions[sid]) && Held(st.sessions[sid]).None?
    requires Held(SessionAfter(st, sid, action)).Some?
    ensures action.TryLock? || action.DialOk?
    ensures var Loan(conn, p), now := Held(SessionAfter(st, sid, action)).value, LockTime(action);
            && p < |st.pools| && !st.pools[p].closed
            && (action.DialOk? ==> conn == Conn(st.nextConn, action.now, action.now))
            && (action.TryLock? ==>
                  exists i :: && 0 <= i < |st.pools[p].idle| && Within(st.pools[p].idle[i], st.pools[p].cfg, now)
                              && conn == Conn(st.pools[p].idle[i].id, st.pools[p].idle[i].createdAt, now))
  {
    hide TxState.TxAfter, TxState.RouteOf, AcquireStep, Dropped, Within;
    var s := st.sessions[sid];
    if action.TryLock? && s.pc.Acquiring? && s.pc.pool < |st.pools| {
      AcquireDoes(st.pools[s.pc.pool], action.now);
    }
  }

  // ---------------------------------------------------------------- closed for good

  lemma GiveBackShut(st: State, sid: nat, s: Session, loan: Loan, how: How, good: bool, after: After, now: int)
    requires sid < |st.sessions| && loan.pool < |st.pools|
    ensures st.shut <= GiveBack(st, sid, s, loan, how, good, after, now).shut
  {
    hide GiveBack;
    GivesBack(st, sid, s, loan, how, good, after, now);
  }

  lemma FinishShut(st: State, sid: nat, outcome: Outcome, resetOk: bool, now: int)
    requires sid < |st.sessions|
    ensures st.shut <= ApplyFinish(st, sid, outcome, resetOk, now).shut
  {
    hide GiveBack, HowClean, Marked;
    forall s: Session, loan: Loan, how: How, good: bool, after: After | loan.pool < |st.pools|
      ensures st.shut <= GiveBack(st, sid, s, loan, how, good, after, now).shut
    {
      GiveBackShut(st, sid, s, loan, how, good, after, now);
    }
  }

  lemma LeaveShut(st: State, sid: nat, resetOk: bool, now: int)
    requires sid < |st.sessions|
    ensures st.shut <= ApplyLeave(st, sid, resetOk, now).shut
  {
    hide GiveBack, HowClean;
    var s := st.sessions[sid];
    if s.pc.AtHead? && s.bound.Some? && s.bound.value.pool < |st.pools| {
      GiveBackShut(st, sid, s.(bound := None, dirty := false), s.bound.value, HowClean(s.dirty, resetOk), resetOk, ToEnd, now);
    }
  }

  lemma ShutGrows(st: State, step: Step)
    ensures st.shut <= Apply(st, step).shut
  {
    hide TxState.TxAfter, TxState.RouteOf, AcquireStep, Dropped, HealthStep, StaleOnes, ApplyFinish, ApplyLeave;
    if step.Act? && step.sid < |st.sessions| {
      if step.action.Finish? {
        FinishShut(st, step.sid, step.action.outcome, step.action.resetOk, step.action.now);
      } else if step.action.Leave? {
        LeaveShut(st, step.sid, step.action.resetOk, step.action.now);
      }
    }
  }

  /** A connection that has been closed is never held or idle again, in any continuation of any run. */
  lemma {:induction false} ClosedForGood(st: State, steps: seq<Step>, k: nat)
    requires Reachable(st) && k < |st.shut|
    ensures var end, c := Run(st, steps), st.shut[k].id;
            && ShutAt(end, k, c) && (forall i: nat :: !Holds(end, i, c)) && (forall p: nat, i: nat :: !IdleAt(end, p, i, c))
    decreases |steps|
  {
    hide Apply, Reachable, Inv, Count, Total, IdleTotal;
    var c := st.shut[k].id;
    if steps == [] {
      ReachableInv(st);
      PlacesIs(st, c);
      CountHas(st.shut, k, c);
      forall i: nat ensures !Holds(st, i, c) {
        if Holds(st, i, c) {
          HolderCounts(st, i, c);
        }
      }
      forall p: nat, i: nat ensures !IdleAt(st, p, i, c) {
        if IdleAt(st, p, i, c) {
          IdleCounts(st, p, i, c);
        }
      }
    } else {
      ShutGrows(st, steps[0]);
      ReachableNext(st, steps[0]);
      ClosedForGood(Apply(st, steps[0]), steps[1..], k);
    }
  }

  /** So session state a failed reset left behind is never seen by anyone: in every run, a connection
      whose reset failed after a session-modifying statement is held by nobody afterwards. */
  lemma FailedResetIsFinal(st: State, step: Step, sid: nat, steps: seq<Step>)
    requires Reachable(st) && EndsBorrow(st, step, sid)
    requires step.Act? && Apply(st, step).sessions[sid].history != []
    requires Unfit(EndedBorrow(st, step, sid), step.action)
    ensures var end, c := Run(Apply(st, step), steps), Held(st.sessions[sid]).value.conn.id;
            (forall i: nat :: !Holds(end, i, c)) && (forall p: nat, i: nat :: !IdleAt(end, p, i, c))
  {
    hide Apply, Reachable, Unfit, Run;
    BorrowEnds(st, step, sid);
    ReachableNext(st, step);
    ClosedForGood(Apply(st, step), steps, |st.shut|);
  }

  // ---------------------------------------------------------------- waking up and falling back

  /** A token wakes one waiter and is used up: the wake-ups under way stay the same. */
  lemma TokenWakesOne(st: State, sid: nat)
    requires Inv(st) && sid < |st.sessions| && IsAt(st, sid, Waiting) && st.pools[st.sessions[sid].pc.pool].tokens > 0
    ensures var p, st' := st.sessions[sid].pc.pool, Apply(st, Act(sid, Receive));
            && p < |st'.pools| && st'.pools[p].tokens == st.pools[p].tokens - 1
            && Total(Waiters, st'.sessions, p) == Total(Waiters, st.sessions, p) - 1
            && Total(Wakers, st'.sessions, p) == Total(Wakers, st.sessions, p) + 1
            && WakeUps(st', p) == WakeUps(st, p)
  {
    hide Inv, Total;
    var p, st' := st.sessions[sid].pc.pool, Apply(st, Act(sid, Receive));
    TotalUpdate(Waiters, st.sessions, sid, st'.sessions[sid], p);
    TotalUpdate(Wakers, st.sessions, sid, st'.sessions[sid], p);
    TotalUpdate(Signals, st.sessions, sid, st'.sessions[sid], p);
  }

  /** The session is on its way to a reader, or holds a reader connection it has not relayed from. */
  predicate OnReader(pc: Pc) {
    (pc.Acquiring? && pc.job.kind.Read?) || (pc.Executing? && pc.job.kind.Read?)
  }

  /** On the way to the writer, with the same statement. */
  predicate FallsBack(st: State, pc: Pc, job: Job) {
    || pc == Acquiring(job.(kind := Fallback), st.writer, Fresh)
    || (pc.Signalling? && pc.after == ToFallback(job))
  }

  function JobOf(pc: Pc): Job
    requires OnReader(pc)
  {
    match pc
    case Acquiring(job, _, _) => job
    case Executing(job, _, _) => job
  }

  /** A reader that cannot be reached never costs a client its session: whatever step a session takes on
      the reader path, it stays on it, or is done with the statement, or tries the same statement on the
      writer, unless a response breaks off while it is being relayed. */
  lemma ReaderFailureFallsBack(st: State, sid: nat, action: Action)
    requires Inv(st) && sid < |st.sessions| && OnReader(st.sessions[sid].pc)
    ensures var pc, pc' := st.sessions[sid].pc, SessionAfter(st, sid, action).pc;
            || (OnReader(pc') && JobOf(pc') == JobOf(pc))
            || (pc'.AtHead? && action.Finish? && action.outcome.Done?)
            || (FallsBack(st, pc', JobOf(pc)) && (action.Finish? ==> action.outcome.ForwardError?))
            || (action.Finish? && action.outcome.RelayError?)
  {
    hide Inv, AcquireStep, TxState.TxAfter, TxState.RouteOf, Marked, Returned;
    InvSession(st, sid);
  }

  /** A fallback or write that gets no connection ends the session, and so does one whose response
      breaks off; nothing else but the client does. */
  lemma SessionEndsBy(st: State, sid: nat, action: Action)
    requires Inv(st) && sid < |st.sessions| && !st.sessions[sid].pc.Ended?
    requires SessionAfter(st, sid, action).pc.Ended?
    ensures var s := st.sessions[sid];
            || action.Leave?
            || (action.Query? && !action.allowed && s.bound.None?)
            || (s.pc.Acquiring? && !s.pc.job.kind.Read? && (action.TryLock? || action.DialOk? || action.DialErr? || action.GiveUp?))
            || (s.pc.Signalling? && s.pc.after.ToEnd? && action.SignalDone?)
  {
    hide Inv, AcquireStep, TxState.TxAfter, TxState.RouteOf, ApplyFinish, ApplyLeave;
    if action.Finish? {
      FinishGoesOn(st, sid, action.outcome, action.resetOk, action.now);
    }
  }

  lemma FinishGoesOn(st: State, sid: nat, outcome: Outcome, resetOk: bool, now: int)
    requires sid < |st.sessions| && !st.sessions[sid].pc.Ended?
    ensures !ApplyFinish(st, sid, outcome, resetOk, now).sessions[sid].pc.Ended?
  {
    hide GiveBack, HowClean, Marked;
    forall s: Session, loan: Loan, how: How, good: bool, after: After
      | loan.pool < |st.pools| && (after.ToEnd? ==> how.Broken?)
      ensures GoesOn(GiveBack(st, sid, s, loan, how, good, after, now), sid)
    {
      GiveBackGoesOn(st, sid, s, loan, how, good, after, now);
    }
  }

  lemma GiveBackGoesOn(st: State, sid: nat, s: Session, loan: Loan, how: How, good: bool, after: After, now: int)
    requires sid < |st.sessions| && loan.pool < |st.pools| && (after.ToEnd? ==> how.Broken?)
    ensures GoesOn(GiveBack(st, sid, s, loan, how, good, after, now), sid)
  {}

  predicate GoesOn(st: State, sid: nat) {
    sid < |st.sessions| && !st.sessions[sid].pc.Ended?
  }

  /** failedDials counts the failed dials of each pool. */
  lemma FailedDialsCount(st: State, sid: nat, action: Action, p: nat)
    requires Inv(st) && sid < |st.sessions| && p < |st.pools|
    ensures var st' := ApplyAction(st, sid, action);
            |st'.failedDials| == |st.failedDials| && p < |st'.failedDials|
            && st'.failedDials[p] == st.failedDials[p]
                 + if action.DialErr? && IsAt(st, sid, Dialing) && st.sessions[sid].pc.pool == p then 1 else 0
  {
    hide AcquireStep, TxState.TxAfter, TxState.RouteOf, ApplyFinish, ApplyLeave;
    if action.Finish? {
      FinishDials(st, sid, action.outcome, action.resetOk, action.now);
    } else if action.Leave? {
      LeaveDials(st, sid, action.resetOk, action.now);
    }
  }

  lemma FinishDials(st: State, sid: nat, outcome: Outcome, resetOk: bool, now: int)
    requires sid < |st.sessions|
    ensures ApplyFinish(st, sid, outcome, resetOk, now).failedDials == st.failedDials
  {
    hide HowClean, Marked, Returned, ReleaseStep;
  }

  lemma LeaveDials(st: State, sid: nat, resetOk: bool, now: int)
    requires sid < |st.sessions|
    ensures ApplyLeave(st, sid, resetOk, now).failedDials == st.failedDials
  {
    hide HowClean, Returned, ReleaseStep;
  }
}
