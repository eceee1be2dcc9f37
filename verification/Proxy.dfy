/** Transaction pooling as a state machine: any number of client sessions run the loop of
    internal/proxy/query.go over any number of pools, while pools are opened, replaced, checked
    and closed underneath them. A scheduler picks any enabled step; critical sections of the
    pool are single steps. */
module Proxy {
  import opened Wrappers
  import opened ConnPool
  import TxState

  // ---------------------------------------------------------------- state

  /** A borrowed connection and the pool that lent it. */
  datatype Loan = Loan(conn: Conn, pool: nat)

  datatype Kind = Write | Read | Fallback

  /** A statement under way: its transaction flag before and after, and its text. */
  datatype Job = Job(kind: Kind, was: bool, now: bool, text: string)

  predicate Modifying(job: Job) {
    TxState.IsSessionModifying(job.text)
  }

  /** Where an Acquire call stands: about to lock, woken by a token, dialling, or committed to
      waiting. */
  datatype Stage = Fresh | Woken | Dialing | Waiting

  /** What follows a discard. */
  datatype After = ToHead | ToEnd | ToFallback(job: Job)

  datatype Pc =
    | AtHead
    | Acquiring(job: Job, pool: nat, stage: Stage)
    | Executing(job: Job, loan: Loan, acquired: bool)
    | Signalling(pool: nat, after: After)
    | Ended

  /** How a borrow ended: plain release, release after a successful reset, discard after a
      failed reset, or discard of a broken connection. */
  datatype How = Plain | Reset | ResetFailed | Broken

  /** good: DISCARD ALL succeeds on the connection of a writer borrow, or the statement of a reader
      borrow was forwarded and relayed. */
  datatype Return = Return(pool: nat, how: How, good: bool)

  /** History of one borrow: the statements that ran on it and how it ended; only the theorems read
      it. */
  datatype Borrow = Borrow(loan: Loan, kind: Kind, ran: seq<string>, ends: seq<Return>)

  datatype Session = Session(inTx: bool, bound: Option<Loan>, dirty: bool, pc: Pc, history: seq<Borrow>)

  /** shut lists the connections closed so far; failedDials counts the failed dials per pool. */
  datatype State = State(pools: seq<PoolState>, failedDials: seq<nat>, writer: nat, readers: map<string, nat>,
                         sessions: seq<Session>, shut: seq<Conn>, nextConn: nat)

  /** The connection a session holds. */
  function Held(s: Session): Option<Loan> {
    if s.pc.Executing? then Some(s.pc.loan) else s.bound
  }

  // ---------------------------------------------------------------- steps

  /** Where a reader-routed query goes. */
  datatype Target = CacheHit | ReaderAt(addr: string) | NoReader

  datatype Outcome = Done | ForwardError | RelayError

  /** What a session can do. */
  datatype Action =
    | Query(text: string, info: TxState.RouteInput, target: Target, allowed: bool)
    | TryLock(now: int)
    | DialOk(now: int)
    | DialErr
    | Receive
    | GiveUp
    | Finish(outcome: Outcome, resetOk: bool, now: int)
    | SignalDone
    | Leave(resetOk: bool, now: int)

  datatype Step =
    | Connect
    | Act(sid: nat, action: Action)
    | Check(pool: nat, now: int, ok: nat)
    | OpenPool(cfg: Config, now: int)
    | ClosePool(pool: nat)
    | UseWriter(pool: nat)
    | UseReaders(readers: map<string, nat>)

  function Start(kind: Kind, job: Job, pool: nat): Pc {
    Acquiring(job.(kind := kind), pool, Fresh)
  }

  function NewSession(): Session {
    Session(false, None, false, AtHead, [])
  }

  /** What a failed Acquire leads to: a read falls back to the writer, anything else ends the
      session. */
  function FailPc(st: State, job: Job): Pc {
    if job.kind.Read? then Start(Fallback, job, st.writer) else Ended
  }

  function AfterPc(st: State, after: After): Pc {
    match after
    case ToHead => AtHead
    case ToEnd => Ended
    case ToFallback(job) => Start(Fallback, job, st.writer)
  }

  /** A session receives a connection. */
  function Borrowing(s: Session, job: Job, loan: Loan): Session {
    s.(pc := Executing(job, loan, true), history := s.history + [Borrow(loan, job.kind, [], [])])
  }

  /** Notes a statement that ran in the current borrow. */
  function Marked(h: seq<Borrow>, text: string): seq<Borrow> {
    if h != [] then h[|h| - 1 := h[|h| - 1].(ran := h[|h| - 1].ran + [text])] else h
  }

  function Returned(h: seq<Borrow>, r: Return): seq<Borrow> {
    if h == [] then h else h[|h| - 1 := h[|h| - 1].(ends := h[|h| - 1].ends + [r])]
  }

  function SetSession(st: State, sid: nat, s: Session): State
    requires sid < |st.sessions|
  {
    st.(sessions := st.sessions[sid := s])
  }

  function SetPool(st: State, p: nat, pool: PoolState): State
    requires p < |st.pools|
  {
    st.(pools := st.pools[p := pool])
  }

  /** Gives loan back to its pool; s is the session with everything but pc and history updated. */
  function GiveBack(st: State, sid: nat, s: Session, loan: Loan, how: How, good: bool, after: After, now: int): State
    requires sid < |st.sessions| && loan.pool < |st.pools|
  {
    var p, pool := loan.pool, st.pools[loan.pool];
    var s' := s.(history := Returned(s.history, Return(p, how, good)));
    if how.Plain? || how.Reset? then
      SetSession(SetPool(st, p, ReleaseStep(pool, loan.conn, now)), sid, s'.(pc := AfterPc(st, after)))
        .(shut := st.shut + if pool.closed then [loan.conn] else [])
    else
      SetSession(SetPool(st, p, DiscardStep(pool)), sid, s'.(pc := Signalling(p, after)))
        .(shut := st.shut + [loan.conn])
  }

  /** Release with a reset first when the borrow is dirty. */
  function HowClean(dirty: bool, resetOk: bool): How {
    if !dirty then Plain else if resetOk then Reset else ResetFailed
  }

  function ApplyQuery(st: State, sid: nat, text: string, info: TxState.RouteInput, target: Target, allowed: bool): State
    requires sid < |st.sessions|
  {
    var s := st.sessions[sid];
    var now := TxState.TxAfter(s.inTx, text);
    var job := Job(Write, s.inTx, now, text);
    if !s.pc.AtHead? then st
    else if TxState.RouteOf(s.inTx, text, info).ToWriter? then
      if s.bound.Some? then SetSession(st, sid, s.(inTx := now, pc := Executing(job, s.bound.value, false)))
      else if !allowed then SetSession(st, sid, s.(inTx := now, pc := Ended))
      else SetSession(st, sid, s.(inTx := now, pc := Start(Write, job, st.writer)))
    else
      match target
      case CacheHit => SetSession(st, sid, s.(inTx := now))
      case ReaderAt(addr) =>
        if addr in st.readers then SetSession(st, sid, s.(inTx := now, pc := Start(Read, job, st.readers[addr])))
        else SetSession(st, sid, s.(inTx := now, pc := Start(Fallback, job, st.writer)))
      case NoReader => SetSession(st, sid, s.(inTx := now, pc := Start(Fallback, job, st.writer)))
  }

  function ApplyTryLock(st: State, sid: nat, now: int): State
    requires sid < |st.sessions|
  {
    var s := st.sessions[sid];
    if !(s.pc.Acquiring? && (s.pc.stage.Fresh? || s.pc.stage.Woken?) && s.pc.pool < |st.pools|) then st
    else
      var job, p := s.pc.job, s.pc.pool;
      var (pool, attempt) := AcquireStep(st.pools[p], now);
      var s' := match attempt
        case PoolClosed => s.(pc := FailPc(st, job))
        case Handed(conn) => Borrowing(s, job, Loan(conn, p))
        case MayDial => s.(pc := Acquiring(job, p, Dialing))
        case MustWait => s.(pc := Acquiring(job, p, Waiting));
      SetSession(SetPool(st, p, pool), sid, s').(shut := st.shut + Dropped(st.pools[p], now))
  }

  predicate IsAt(st: State, sid: nat, stage: Stage)
    requires sid < |st.sessions|
  {
    var pc := st.sessions[sid].pc;
    pc.Acquiring? && pc.stage == stage && pc.pool < |st.pools| && pc.pool < |st.failedDials|
  }

  function ApplyDialOk(st: State, sid: nat, now: int): State
    requires sid < |st.sessions|
  {
    if !IsAt(st, sid, Dialing) then st
    else
      var s := st.sessions[sid];
      var job, p, conn := s.pc.job, s.pc.pool, Conn(st.nextConn, now, now);
      var (pool, kept) := DialDoneStep(st.pools[p]);
      var s' := if kept then Borrowing(s, job, Loan(conn, p)) else s.(pc := FailPc(st, job));
      SetSession(SetPool(st, p, pool), sid, s')
        .(shut := st.shut + if kept then [] else [conn], nextConn := st.nextConn + 1)
  }

  function ApplyDialErr(st: State, sid: nat): State
    requires sid < |st.sessions|
  {
    if !IsAt(st, sid, Dialing) then st
    else
      var s := st.sessions[sid];
      var p := s.pc.pool;
      SetSession(SetPool(st, p, DialFailStep(st.pools[p])), sid, s.(pc := FailPc(st, s.pc.job)))
        .(failedDials := st.failedDials[p := st.failedDials[p] + 1])
  }

  function ApplyReceive(st: State, sid: nat): State
    requires sid < |st.sessions|
  {
    if !IsAt(st, sid, Waiting) || st.pools[st.sessions[sid].pc.pool].tokens == 0 then st
    else
      var s := st.sessions[sid];
      var p := s.pc.pool;
      SetSession(SetPool(st, p, st.pools[p].(tokens := st.pools[p].tokens - 1)), sid, s.(pc := s.pc.(stage := Woken)))
  }

  /** The transaction lifecycle switch after a statement on the writer. */
  function FinishWrite(st: State, sid: nat, resetOk: bool, now: int): State
    requires sid < |st.sessions| && st.sessions[sid].pc.Executing?
  {
    var s := st.sessions[sid];
    var Executing(job, loan, acquired) := s.pc;
    var dirty := s.dirty || Modifying(job);
    var s' := s.(history := Marked(s.history, job.text));
    if !job.was && job.now then SetSession(st, sid, s'.(bound := Some(loan), dirty := dirty, pc := AtHead))
    else if job.was && !job.now then
      if s.bound.Some? && s.bound.value.pool < |st.pools| then
        GiveBack(st, sid, s'.(bound := None, dirty := false), loan.(pool := s.bound.value.pool),
                 HowClean(dirty, resetOk), resetOk, ToHead, now)
      else st
    else if acquired then
      if loan.pool < |st.pools| then
        GiveBack(st, sid, s'.(dirty := false), loan, HowClean(dirty, resetOk), resetOk, ToHead, now)
      else st
    else SetSession(st, sid, s'.(dirty := dirty, pc := AtHead))
  }

  function ApplyFinish(st: State, sid: nat, outcome: Outcome, resetOk: bool, now: int): State
    requires sid < |st.sessions|
  {
    var s := st.sessions[sid];
    if !s.pc.Executing? then st
    else if s.pc.job.kind.Write? then FinishWrite(st, sid, resetOk, now)
    else if s.pc.loan.pool >= |st.pools| then st
    else
      var s' := s.(history := Marked(s.history, s.pc.job.text));
      var how := if outcome.Done? then Plain else Broken;
      var after := if outcome.Done? then ToHead
                   else if outcome.ForwardError? && s.pc.job.kind.Read? then ToFallback(s.pc.job)
                   else ToEnd;
      GiveBack(st, sid, s', s.pc.loan, how, outcome.Done?, after, now)
  }

  function ApplySignal(st: State, sid: nat): State
    requires sid < |st.sessions|
  {
    var s := st.sessions[sid];
    if !(s.pc.Signalling? && s.pc.pool < |st.pools|) then st
    else
      var p := s.pc.pool;
      SetSession(SetPool(st, p, SignalStep(st.pools[p])), sid, s.(pc := AfterPc(st, s.pc.after)))
  }

  /** The client goes away: a bound writer is returned by the deferred cleanup. */
  function ApplyLeave(st: State, sid: nat, resetOk: bool, now: int): State
    requires sid < |st.sessions|
  {
    var s := st.sessions[sid];
    if !s.pc.AtHead? then st
    else if s.bound.None? then SetSession(st, sid, s.(pc := Ended))
    else if s.bound.value.pool >= |st.pools| then st
    else GiveBack(st, sid, s.(bound := None, dirty := false), s.bound.value, HowClean(s.dirty, resetOk), resetOk, ToEnd, now)
  }

  function ApplyCheck(st: State, p: nat, now: int, ok: nat): State
    requires p < |st.pools|
  {
    var pool := st.pools[p];
    SetPool(st, p, HealthStep(pool, now, st.nextConn, ok))
      .(shut := st.shut + (if pool.closed then [] else StaleOnes(pool.idle, pool.cfg, now)),
        nextConn := st.nextConn + Replenished(pool, now, ok))
  }

  function ApplyClose(st: State, p: nat): State
    requires p < |st.pools|
  {
    var pool := st.pools[p];
    SetPool(st, p, CloseStep(pool)).(shut := st.shut + if pool.closed then [] else pool.idle)
  }

  function ApplyAction(st: State, sid: nat, action: Action): State
    requires sid < |st.sessions|
  {
    match action
    case Query(text, info, target, allowed) => ApplyQuery(st, sid, text, info, target, allowed)
    case TryLock(now) => ApplyTryLock(st, sid, now)
    case DialOk(now) => ApplyDialOk(st, sid, now)
    case DialErr => ApplyDialErr(st, sid)
    case Receive => ApplyReceive(st, sid)
    case GiveUp =>
      if IsAt(st, sid, Waiting) then
        SetSession(st, sid, st.sessions[sid].(pc := FailPc(st, st.sessions[sid].pc.job)))
      else st
    case Finish(outcome, resetOk, now) => ApplyFinish(st, sid, outcome, resetOk, now)
    case SignalDone => ApplySignal(st, sid)
    case Leave(resetOk, now) => ApplyLeave(st, sid, resetOk, now)
  }

  /** One scheduler step; a step that is not enabled changes nothing. */
  function Apply(st: State, step: Step): State {
    match step
    case Connect => st.(sessions := st.sessions + [NewSession()])
    case Act(sid, action) => if sid < |st.sessions| then ApplyAction(st, sid, action) else st
    case Check(p, now, ok) => if p < |st.pools| then ApplyCheck(st, p, now, ok) else st
    case OpenPool(cfg, now) =>
      if cfg.min <= cfg.max then
        st.(pools := st.pools + [NewPool(cfg, st.nextConn, now)], failedDials := st.failedDials + [0],
            nextConn := st.nextConn + cfg.min)
      else st
    case ClosePool(p) => if p < |st.pools| then ApplyClose(st, p) else st
    case UseWriter(p) => if p < |st.pools| then st.(writer := p) else st
    case UseReaders(m) => if forall a :: a in m ==> m[a] < |st.pools| then st.(readers := m) else st
  }

  function Run(st: State, steps: seq<Step>): State
    decreases |steps|
  {
    if steps == [] then st else Run(Apply(st, steps[0]), steps[1..])
  }

  /** One open writer pool and nobody connected. */
  function Initial(cfg: Config, now: int): State {
    State([NewPool(cfg, 0, now)], [0], 0, map[], [], [], cfg.min)
  }
}
