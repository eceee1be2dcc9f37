/** Causal reads by write-ahead-log position: the writer's log grows, replicas replay it on their
    own, a poller reports replay positions late, and a session's reads go only to replicas whose
    reported position has reached the session's last recorded write. Follows the LSN tracking of
    internal/proxy/backend.go, internal/proxy/query_read.go, internal/proxy/lsn.go and
    internal/router/balancer.go. */
module CausalReads {
  import opened Wrappers
  import opened Balancer

  // ---------------------------------------------------------------- state

  /** A balancer entry; list positions refer to these objects. */
  datatype Entry = Entry(addr: string, healthy: bool, replay: nat)

  /** Recording: a write is done and its position is about to be queried. */
  datatype Phase = Idle | Recording | Reading(addr: string, required: nat)

  /** last is the recorded write position; need is where the session's newest committed write
      ends in the log, which only the theorems look at. */
  datatype Session = Session(last: nat, need: nat, txOpen: bool, phase: Phase)

  /** A read a replica has served: its replay position then, the position the balancer asked for,
      and the position of the session's newest committed write. */
  datatype Served = Served(sid: nat, addr: string, replayed: nat, required: nat, need: nat)

  datatype Poll = Poll(addr: string, seen: nat)

  datatype State = State(wal: nat, actual: map<string, nat>, entries: seq<Entry>, list: seq<nat>, cursor: nat,
                         polls: seq<Poll>, sessions: seq<Session>, log: seq<Served>)

  /** How far the replica at addr has really replayed. */
  function Replayed(st: State, addr: string): nat {
    if addr in st.actual then st.actual[addr] else 0
  }

  predicate ListOk(st: State) {
    forall i :: 0 <= i < |st.list| ==> st.list[i] < |st.entries|
  }

  // ---------------------------------------------------------------- the balancer on entries

  /** First list position from i on whose entry has the address, or the length. */
  function FindAddr(st: State, addr: string, i: nat): (r: nat)
    requires ListOk(st) && i <= |st.list|
    ensures i <= r <= |st.list|
    ensures r < |st.list| ==> st.entries[st.list[r]].addr == addr
    decreases |st.list| - i
  {
    if i == |st.list| || st.entries[st.list[i]].addr == addr then i else FindAddr(st, addr, i + 1)
  }

  function SetEntry(st: State, addr: string, f: Entry -> Entry): State
    requires ListOk(st)
  {
    var i := FindAddr(st, addr, 0);
    if i == |st.list| then st
    else st.(entries := st.entries[st.list[i] := f(st.entries[st.list[i]])])
  }

  function EligibleFor(entries: seq<Entry>, list: seq<nat>, minLSN: nat): (r: seq<bool>)
    requires forall i :: 0 <= i < |list| ==> list[i] < |entries|
    ensures |r| == |list|
    ensures forall i :: 0 <= i < |list| ==>
              r[i] == CanServe(entries[list[i]].healthy, entries[list[i]].replay, minLSN)
  {
    if list == [] then []
    else
      var m := |list| - 1;
      var b := entries[list[m]];
      EligibleFor(entries, list[..m], minLSN) + [CanServe(b.healthy, b.replay, minLSN)]
  }

  /** UpdateBackends: the last entry of a known address is reused, an unknown address gets a new
      healthy one at position zero. */
  function Rebuild(st: State, prev: seq<nat>, addrs: seq<string>): State
    requires ListOk(st) && forall i :: 0 <= i < |prev| ==> prev[i] < |st.entries|
    decreases |addrs|
  {
    if addrs == [] then st
    else
      var known := LastWith(st.entries, prev, addrs[0]);
      var st' := if known.Some? then st.(list := st.list + [known.value])
                 else st.(list := st.list + [|st.entries|], entries := st.entries + [Entry(addrs[0], true, 0)]);
      Rebuild(st', prev, addrs[1..])
  }

  function LastWith(entries: seq<Entry>, list: seq<nat>, addr: string): (r: Option<nat>)
    requires forall i :: 0 <= i < |list| ==> list[i] < |entries|
    ensures r.Some? ==> r.value < |entries| && entries[r.value].addr == addr
  {
    if list == [] then None
    else if entries[list[|list| - 1]].addr == addr then Some(list[|list| - 1])
    else LastWith(entries, list[..|list| - 1], addr)
  }

  // ---------------------------------------------------------------- steps

  datatype Action =
    | Write(size: nat)
    | TxBegin
    | TxWrite(size: nat)
    | TxCommit(size: nat)
    | TxAbort
    | Record(ok: bool)
    | ReadStart
    | ReadServe
    | ReadElsewhere

  datatype Step =
    | Connect
    | Act(sid: nat, action: Action)
    | OtherWrites(size: nat)
    | Replay(addr: string, to: nat)
    | Observe(addr: string)
    | Deliver(poll: nat)
    | MarkUnhealthy(addr: string)
    | Recover(entry: nat)
    | UpdateBackends(addrs: seq<string>)

  function Put(st: State, sid: nat, s: Session): State
    requires sid < |st.sessions|
  {
    st.(sessions := st.sessions[sid := s])
  }

  function StartRead(st: State, sid: nat): State
    requires ListOk(st) && sid < |st.sessions|
  {
    var s := st.sessions[sid];
    if !s.phase.Idle? || s.txOpen then st
    else
      var (pos, c) := Choose(EligibleFor(st.entries, st.list, s.last), st.cursor);
      if pos.None? then st.(cursor := c)
      else Put(st, sid, s.(phase := Reading(st.entries[st.list[pos.value]].addr, s.last))).(cursor := c)
  }

  /** One step; a step that is not enabled changes nothing. */
  function Apply(st: State, step: Step): State
    requires ListOk(st)
  {
    match step
    case Connect => st.(sessions := st.sessions + [Session(0, 0, false, Idle)])
    case OtherWrites(size) => st.(wal := st.wal + size)
    case Replay(addr, to) => if Replayed(st, addr) <= to <= st.wal then st.(actual := st.actual[addr := to]) else st
    case Observe(addr) => st.(polls := st.polls + [Poll(addr, Replayed(st, addr))])
    case Deliver(i) =>
      if i < |st.polls| then
        var p := st.polls[i];
        SetEntry(st, p.addr, (e: Entry) => e.(replay := p.seen)).(polls := st.polls[..i] + st.polls[i + 1..])
      else st
    case MarkUnhealthy(addr) => SetEntry(st, addr, (e: Entry) => e.(healthy := false))
    case Recover(j) => if j < |st.entries| then st.(entries := st.entries[j := st.entries[j].(healthy := true)]) else st
    case UpdateBackends(addrs) => Rebuild(st.(list := []), st.list, addrs)
    case Act(sid, action) => if sid < |st.sessions| then ApplyAction(st, sid, action) else st
  }

  function ApplyAction(st: State, sid: nat, action: Action): State
    requires ListOk(st) && sid < |st.sessions|
  {
    var s := st.sessions[sid];
    match action
    case Write(size) =>
      if s.phase.Idle? && !s.txOpen then
        Put(st, sid, s.(need := st.wal + size + 1, phase := Recording)).(wal := st.wal + size + 1)
      else st
    case TxBegin => if s.phase.Idle? then Put(st, sid, s.(txOpen := true)) else st
    case TxWrite(size) =>
      if s.phase.Idle? && s.txOpen then Put(st, sid, s.(phase := Recording)).(wal := st.wal + size + 1) else st
    case TxCommit(size) =>
      if s.phase.Idle? && s.txOpen then
        Put(st, sid, s.(need := st.wal + size + 1, txOpen := false)).(wal := st.wal + size + 1)
      else st
    case TxAbort => if s.phase.Idle? && s.txOpen then Put(st, sid, s.(txOpen := false)) else st
    case Record(ok) =>
      if s.phase.Recording? then Put(st, sid, s.(last := if ok then st.wal else s.last, phase := Idle)) else st
    case ReadStart => StartRead(st, sid)
    case ReadServe =>
      if s.phase.Reading? then
        Put(st, sid, s.(phase := Idle))
          .(log := st.log + [Served(sid, s.phase.addr, Replayed(st, s.phase.addr), s.phase.required, s.need)])
      else st
    case ReadElsewhere => if s.phase.Reading? then Put(st, sid, s.(phase := Idle)) else st
  }

  // ---------------------------------------------------------------- the invariant

  /** Nothing the proxy believes about a replica runs ahead of the replica. */
  predicate Behind(st: State) {
    && (forall j :: 0 <= j < |st.entries| ==> st.entries[j].replay <= Replayed(st, st.entries[j].addr))
    && (forall i :: 0 <= i < |st.polls| ==> st.polls[i].seen <= Replayed(st, st.polls[i].addr))
  }

  predicate SessionOk(st: State, s: Session) {
    && s.last <= st.wal && s.need <= st.wal
    && (s.phase.Reading? ==> s.phase.required == s.last <= Replayed(st, s.phase.addr))
  }

  predicate Inv(st: State) {
    && ListOk(st) && Behind(st)
    && (forall i :: 0 <= i < |st.sessions| ==> SessionOk(st, st.sessions[i]))
    && (forall i :: 0 <= i < |st.log| ==> st.log[i].required <= st.log[i].replayed)
  }

  lemma {:induction false} RebuildKeeps(st: State, prev: seq<nat>, addrs: seq<string>)
    requires ListOk(st) && forall i :: 0 <= i < |prev| ==> prev[i] < |st.entries|
    requires Behind(st)
    ensures var st' := Rebuild(st, prev, addrs);
            && ListOk(st') && Behind(st') && st' == st.(list := st'.list, entries := st'.entries)
    decreases |addrs|
  {
    if addrs != [] {
      var known := LastWith(st.entries, prev, addrs[0]);
      var st' := if known.Some? then st.(list := st.list + [known.value])
                 else st.(list := st.list + [|st.entries|], entries := st.entries + [Entry(addrs[0], true, 0)]);
      RebuildKeeps(st', prev, addrs[1..]);
    }
  }

  /** Replay positions only grow, so what was behind stays behind. */
  lemma ReplayKeeps(st: State, addr: string, to: nat)
    requires Inv(st)
    ensures Inv(Apply(st, Replay(addr, to)))
  {
    var st' := Apply(st, Replay(addr, to));
    assert forall a :: Replayed(st, a) <= Replayed(st', a);
  }

  lemma StartReadKeeps(st: State, sid: nat)
    requires Inv(st) && sid < |st.sessions|
    ensures Inv(StartRead(st, sid))
  {
    hide Choose;
  }

  lemma ActionKeeps(st: State, sid: nat, action: Action)
    requires Inv(st) && sid < |st.sessions|
    ensures Inv(ApplyAction(st, sid, action))
  {
    hide StartRead;
    match action
    case Write(_) => case TxBegin => case TxWrite(_) => case TxCommit(_) => case TxAbort => case Record(_) =>
    case ReadStart => StartReadKeeps(st, sid);
    case ReadServe => case ReadElsewhere =>
  }

  lemma DeliverKeeps(st: State, i: nat)
    requires Inv(st)
    ensures Inv(Apply(st, Deliver(i)))
  {}

  lemma MarkKeeps(st: State, addr: string)
    requires Inv(st)
    ensures Inv(Apply(st, MarkUnhealthy(addr)))
  {}

  lemma StepKeepsInv(st: State, step: Step)
    requires Inv(st)
    ensures Inv(Apply(st, step))
  {
    hide ApplyAction, Rebuild, SetEntry;
    match step
    case Connect =>
    case Act(sid, action) => if sid < |st.sessions| { ActionKeeps(st, sid, action); }
    case OtherWrites(_) =>
    case Replay(addr, to) => ReplayKeeps(st, addr, to);
    case Observe(_) =>
    case Deliver(i) => DeliverKeeps(st, i);
    case MarkUnhealthy(addr) => MarkKeeps(st, addr);
    case Recover(_) =>
    case UpdateBackends(addrs) => RebuildKeeps(st.(list := []), st.list, addrs);
  }

  // ---------------------------------------------------------------- what the theorems look at

  /** The step commits a write of session sid: a statement outside a transaction, or a COMMIT. */
  predicate Commits(st: State, step: Step, sid: nat)
    requires sid < |st.sessions|
  {
    && step.Act? && step.sid == sid && st.sessions[sid].phase.Idle?
    && (if st.sessions[sid].txOpen then step.action.TxCommit? else step.action.Write?)
  }

  /** The session's newest committed write is at the end of the log when it commits, and nowhere else does
      it move; a write asks for its position to be recorded, and a COMMIT does not. */
  lemma NeedIsNewestCommit(st: State, step: Step, sid: nat)
    requires Inv(st) && sid < |st.sessions|
    ensures sid < |Apply(st, step).sessions|
    ensures var s, s', st' := st.sessions[sid], Apply(st, step).sessions[sid], Apply(st, step);
            && (Commits(st, step, sid) ==> st.wal < st'.wal == s'.need && s'.phase.Recording? == step.action.Write?)
            && (!Commits(st, step, sid) ==> s'.need == s.need)
  {
    hide Choose, FindAddr;
    if step.UpdateBackends? {
      UpdateKeeps(st, step.addrs);
    }
  }

  /** A write inside a transaction moves the log on and asks for its position to be recorded, but commits
      nothing; it happens exactly in a transaction. */
  lemma WriteInTransaction(st: State, sid: nat, size: nat)
    requires Inv(st) && sid < |st.sessions| && st.sessions[sid].phase.Idle?
    ensures var st' := Apply(st, Act(sid, TxWrite(size)));
            if st.sessions[sid].txOpen then st'.wal > st.wal && st'.sessions[sid].phase.Recording? && st'.sessions[sid].txOpen
            else st' == st
  {}

  /** A session that connects has written nothing and is in no transaction. */
  lemma ConnectsClean(st: State)
    requires Inv(st)
    ensures var st' := Apply(st, Connect);
            && |st'.sessions| == |st.sessions| + 1 && st'.sessions[..|st.sessions|] == st.sessions
            && var s := st'.sessions[|st.sessions|]; s.last == 0 && s.need == 0 && !s.txOpen && s.phase.Idle?
  {}

  // ---------------------------------------------------------------- which replica gets a read

  /** List position i can serve a read that asks for a position: healthy and reported there. */
  predicate Serves(st: State, i: nat, required: nat)
    requires ListOk(st)
  {
    i < |st.list| && st.entries[st.list[i]].healthy && (required > 0 ==> st.entries[st.list[i]].replay >= required)
  }

  /** A read goes to a replica that is listed, healthy at that step and reported at the session's
      position, and it does so exactly when there is one. */
  lemma ReadStartExact(st: State, sid: nat)
    requires Inv(st) && sid < |st.sessions| && st.sessions[sid].phase.Idle? && !st.sessions[sid].txOpen
    ensures var s, s' := st.sessions[sid], Apply(st, Act(sid, ReadStart)).sessions[sid];
            && (s'.phase.Reading? <==> exists i: nat :: Serves(st, i, s.last))
            && (s'.phase.Reading? ==> s'.phase.required == s.last)
            && (s'.phase.Reading? ==> exists i: nat :: Serves(st, i, s.last) && st.entries[st.list[i]].addr == s'.phase.addr)
            && (!s'.phase.Reading? ==> s' == s)
  {
    hide Choose;
    var s := st.sessions[sid];
    var e := EligibleFor(st.entries, st.list, s.last);
    EmptyMeansNone(e, st.cursor);
    forall i: nat ensures Serves(st, i, s.last) <==> i < |e| && e[i] {}
  }

  /** No listed entry of the address is healthy. */
  predicate Down(st: State, addr: string)
    requires ListOk(st)
  {
    forall i :: 0 <= i < |st.list| && st.entries[st.list[i]].addr == addr ==> !st.entries[st.list[i]].healthy
  }

  /** The list has one entry for the address. */
  predicate OneEntry(st: State, addr: string)
    requires ListOk(st)
  {
    forall i, j :: 0 <= i < |st.list| && 0 <= j < |st.list| && st.entries[st.list[i]].addr == addr == st.entries[st.list[j]].addr
                   ==> st.list[i] == st.list[j]
  }

  lemma MarkedIsDown(st: State, addr: string)
    requires Inv(st) && OneEntry(st, addr)
    ensures Inv(Apply(st, MarkUnhealthy(addr))) && Down(Apply(st, MarkUnhealthy(addr)), addr)
  {
    MarkKeeps(st, addr);
    FindAddrFinds(st, addr, 0);
  }

  lemma {:induction false} FindAddrFinds(st: State, addr: string, i: nat)
    requires ListOk(st) && i <= |st.list|
    ensures FindAddr(st, addr, i) == |st.list| ==> forall j :: i <= j < |st.list| ==> st.entries[st.list[j]].addr != addr
    decreases |st.list| - i
  {
    if i < |st.list| && st.entries[st.list[i]].addr != addr {
      FindAddrFinds(st, addr, i + 1);
    }
  }

  lemma StepKeepsDown(st: State, step: Step, addr: string)
    requires Inv(st) && Down(st, addr) && !step.Recover? && !step.UpdateBackends?
    ensures Inv(Apply(st, step)) && Down(Apply(st, step), addr)
  {
    hide Choose, Inv, FindAddr;
    StepKeepsInv(st, step);
    InvLists(st);
  }

  lemma StepNoNewRead(st: State, step: Step, addr: string, sid: nat)
    requires Inv(st) && Down(st, addr) && !step.UpdateBackends?
    requires sid < |Apply(st, step).sessions| && ReadsAt(Apply(st, step), sid, addr)
    ensures sid < |st.sessions| && ReadsAt(st, sid, addr)
  {
    hide Inv, ApplyAction, FindAddr;
    InvLists(st);
    if step.Act? && step.sid < |st.sessions| {
      ActionNoNewRead(st, step.sid, step.action, addr, sid);
    }
  }

  lemma ActionNoNewRead(st: State, who: nat, action: Action, addr: string, sid: nat)
    requires Inv(st) && Down(st, addr) && who < |st.sessions|
    requires sid < |ApplyAction(st, who, action).sessions| && ReadsAt(ApplyAction(st, who, action), sid, addr)
    ensures sid < |st.sessions| && ReadsAt(st, sid, addr)
  {
    hide Inv, StartRead;
    InvLists(st);
    if action.ReadStart? {
      OthersRead(st, who, sid);
      if who == sid && st.sessions[sid].phase.Idle? && !st.sessions[sid].txOpen {
        ReadStartExact(st, sid);
      }
    }
  }

  lemma OthersRead(st: State, who: nat, sid: nat)
    requires ListOk(st) && who < |st.sessions|
    ensures |StartRead(st, who).sessions| == |st.sessions|
    ensures sid < |st.sessions| && (sid != who || !st.sessions[sid].phase.Idle? || st.sessions[sid].txOpen) ==>
              StartRead(st, who).sessions[sid] == st.sessions[sid]
  {
    hide Choose;
  }

  lemma InvLists(st: State)
    requires Inv(st)
    ensures ListOk(st)
  {}

  predicate ReadsAt(st: State, sid: nat, addr: string)
    requires sid < |st.sessions|
  {
    st.sessions[sid].phase.Reading? && st.sessions[sid].phase.addr == addr
  }

  // ---------------------------------------------------------------- runs

  function Initial(wal: nat): State {
    State(wal, map[], [], [], 0, [], [], [])
  }

  /** The run of the steps from position i on; the invariant makes every step well defined. */
  ghost function RunFrom(st: State, steps: seq<Step>, i: nat): (r: State)
    requires Inv(st) && i <= |steps|
    ensures Inv(r)
    decreases |steps| - i
  {
    if i == |steps| then st
    else
      StepKeepsInv(st, steps[i]);
      RunFrom(Apply(st, steps[i]), steps, i + 1)
  }

  ghost function Run(st: State, steps: seq<Step>): (r: State)
    requires Inv(st)
    ensures Inv(r)
  {
    RunFrom(st, steps, 0)
  }

  /** In every run, every read a replica served ran at a replay position at or past the position
      recorded for the session; so it saw the session's newest committed write whenever that write
      was covered by the recorded position. */
  lemma ServedReadsReachRecorded(wal: nat, steps: seq<Step>, i: nat)
    requires i < |Run(Initial(wal), steps).log|
    ensures var e := Run(Initial(wal), steps).log[i];
            e.required <= e.replayed && (e.need <= e.required ==> e.need <= e.replayed)
  {}

  /** Every session that reads at the address in st did so in was. */
  predicate NoNewReads(was: State, st: State, addr: string) {
    forall sid :: 0 <= sid < |st.sessions| && ReadsAt(st, sid, addr) ==> sid < |was.sessions| && ReadsAt(was, sid, addr)
  }

  lemma {:induction false} RunKeepsDown(was: State, st: State, steps: seq<Step>, i: nat, addr: string)
    requires Inv(st) && Down(st, addr) && NoNewReads(was, st, addr) && i <= |steps|
    requires forall j :: 0 <= j < |steps| ==> !steps[j].Recover? && !steps[j].UpdateBackends?
    ensures NoNewReads(was, RunFrom(st, steps, i), addr)
    decreases |steps| - i
  {
    hide Apply, Inv, Down, ReadsAt;
    if i < |steps| {
      InvLists(st);
      var st' := Apply(st, steps[i]);
      StepKeepsDown(st, steps[i], addr);
      forall sid | 0 <= sid < |st'.sessions| && ReadsAt(st', sid, addr) ensures sid < |was.sessions| && ReadsAt(was, sid, addr) {
        StepNoNewRead(st, steps[i], addr, sid);
      }
      RunKeepsDown(was, st', steps, i + 1, addr);
    }
  }

  /** An address marked unhealthy gets no new read, in any run, until a backend recovers or the backends
      are updated. */
  lemma UnhealthyGetsNoReads(st: State, addr: string, steps: seq<Step>)
    requires Inv(st) && OneEntry(st, addr)
    requires forall j :: 0 <= j < |steps| ==> !steps[j].Recover? && !steps[j].UpdateBackends?
    ensures var st' := Apply(st, MarkUnhealthy(addr)); Inv(st') && NoNewReads(st, Run(st', steps), addr)
  {
    MarkedIsDown(st, addr);
    RunKeepsDown(st, Apply(st, MarkUnhealthy(addr)), steps, 0, addr);
  }

  // ---------------------------------------------------------------- reads are causal

  /** The recorded position of session sid covers its newest committed write, and did so at each of
      its served reads from log entry n on. */
  predicate Covered(st: State, sid: nat, n: nat) {
    && (sid < |st.sessions| && !st.sessions[sid].phase.Recording? ==> st.sessions[sid].need <= st.sessions[sid].last)
    && (forall i :: n <= i < |st.log| && st.log[i].sid == sid ==> st.log[i].need <= st.log[i].required)
  }

  /** The step is not one in which session sid commits a multi-statement transaction or fails to
      record a position. */
  predicate Recorded(step: Step, sid: nat) {
    step.Act? && step.sid == sid ==> !step.action.TxCommit? && step.action != Record(false)
  }

  lemma ActionKeepsCovered(st: State, sid: nat, action: Action, who: nat, n: nat)
    requires Inv(st) && Covered(st, sid, n) && Recorded(Act(who, action), sid) && who < |st.sessions|
    ensures Covered(ApplyAction(st, who, action), sid, n)
  {
    hide Choose;
    match action
    case Write(_) => case TxBegin => case TxWrite(_) => case TxCommit(_) => case TxAbort => case Record(_) =>
    case ReadStart => case ReadServe => case ReadElsewhere =>
  }

  lemma StepKeepsCovered(st: State, step: Step, sid: nat, n: nat)
    requires Inv(st) && Covered(st, sid, n) && Recorded(step, sid)
    ensures Covered(Apply(st, step), sid, n)
  {
    hide ApplyAction, Rebuild, Inv;
    if step.Act? {
      if step.sid < |st.sessions| {
        ActionKeepsCovered(st, sid, step.action, step.sid, n);
      }
    } else if step.UpdateBackends? {
      UpdateKeeps(st, step.addrs);
    }
  }

  lemma UpdateKeeps(st: State, addrs: seq<string>)
    requires Inv(st)
    ensures var st' := Apply(st, UpdateBackends(addrs)); st'.sessions == st.sessions && st'.log == st.log
  {
    hide Rebuild;
    RebuildKeeps(st.(list := []), st.list, addrs);
  }

  lemma {:induction false} RunKeepsCovered(st: State, steps: seq<Step>, i: nat, sid: nat, n: nat)
    requires Inv(st) && Covered(st, sid, n) && i <= |steps|
    requires forall j :: 0 <= j < |steps| ==> Recorded(steps[j], sid)
    ensures Covered(RunFrom(st, steps, i), sid, n)
    decreases |steps| - i
  {
    hide Covered, Apply;
    if i < |steps| {
      StepKeepsInv(st, steps[i]);
      StepKeepsCovered(st, steps[i], sid, n);
      RunKeepsCovered(Apply(st, steps[i]), steps, i + 1, sid, n);
    }
  }

  /** Causal reads: over every interleaving of writes, replay, late polls, health changes, backend
      updates and reads in which the reading session's own writes are recorded, a read served by a
      replica runs where the replica has replayed all of that session's earlier writes. */
  lemma ReadsAreCausal(wal: nat, steps: seq<Step>, i: nat)
    requires i < |Run(Initial(wal), steps).log|
    requires forall j :: 0 <= j < |steps| ==> Recorded(steps[j], Run(Initial(wal), steps).log[i].sid)
    ensures var e := Run(Initial(wal), steps).log[i]; e.need <= e.replayed
  {
    RunKeepsCovered(Initial(wal), steps, 0, Run(Initial(wal), steps).log[i].sid, 0);
    ServedReadsReachRecorded(wal, steps, i);
  }

  // ---------------------------------------------------------------- exactly when a read can be stale

  /** Of session sid the step is at most a part of a read. */
  predicate OnlyReads(step: Step, sid: nat) {
    step.Act? && step.sid == sid ==> step.action.ReadStart? || step.action.ReadServe? || step.action.ReadElsewhere?
  }

  /** Some read of session sid served from log entry n on missed a committed write of the session. */
  ghost predicate StaleSince(st: State, sid: nat, n: nat) {
    exists i :: n <= i < |st.log| && st.log[i].sid == sid && st.log[i].replayed < st.log[i].need
  }

  /** There is an address outside every finite set. */
  lemma {:induction false} NewAddress(known: set<string>) returns (a: string)
    ensures a !in known
  {
    var n := Longest(known);
    a := seq(n + 1, _ => 'r');
  }

  lemma {:induction false} Longest(known: set<string>) returns (n: nat)
    ensures forall a :: a in known ==> |a| <= n
  {
    if known == {} {
      n := 0;
    } else {
      var a :| a in known;
      n := Longest(known - {a});
      n := if |a| > n then |a| else n;
    }
  }

  /** The steps that bring a stale read about: a replica joins, replays just what is recorded for
      the session, and is reported there. */
  function StaleSteps(st: State, sid: nat, a: string): seq<Step>
    requires sid < |st.sessions|
  {
    [UpdateBackends([a]), Replay(a, st.sessions[sid].last), Observe(a), Deliver(|st.polls|), Act(sid, ReadStart),
     Act(sid, ReadServe)]
  }

  lemma RunStep(st: State, steps: seq<Step>, i: nat, st': State)
    requires Inv(st) && i < |steps| && st' == Apply(st, steps[i])
    ensures Inv(st') && RunFrom(st, steps, i) == RunFrom(st', steps, i + 1)
  {
    hide Apply;
    StepKeepsInv(st, steps[i]);
  }

  lemma {:induction false} NoSuchEntry(entries: seq<Entry>, list: seq<nat>, a: string)
    requires forall i :: 0 <= i < |list| ==> list[i] < |entries|
    requires forall j :: 0 <= j < |entries| ==> entries[j].addr != a
    ensures LastWith(entries, list, a) == None
  {
    if list != [] {
      NoSuchEntry(entries, list[..|list| - 1], a);
    }
  }

  /** A new replica is the only backend. */
  function Joined(st: State, a: string): State {
    st.(list := [|st.entries|], entries := st.entries + [Entry(a, true, 0)])
  }

  lemma Joins(st: State, a: string)
    requires ListOk(st) && forall j :: 0 <= j < |st.entries| ==> st.entries[j].addr != a
    ensures Apply(st, UpdateBackends([a])) == Joined(st, a)
  {
    NoSuchEntry(st.entries, st.list, a);
    var addrs := [a];
    assert addrs[1..] == [];
    var empty := st.(list := []);
    assert empty.list + [|st.entries|] == [|st.entries|];
    assert Rebuild(empty, st.list, addrs) == Rebuild(Joined(st, a), st.list, addrs[1..]);
  }

  lemma ReplaysAndReports(st: State, sid: nat, a: string)
    requires Inv(Joined(st, a)) && sid < |st.sessions| && a !in st.actual
    ensures var steps, last := StaleSteps(st, sid, a), st.sessions[sid].last;
            var r := Joined(st, a).(actual := st.actual[a := last], entries := st.entries + [Entry(a, true, last)]);
            Inv(r) && RunFrom(Joined(st, a), steps, 1) == RunFrom(r, steps, 4)
  {
    var steps, last := StaleSteps(st, sid, a), st.sessions[sid].last;
    var s1 := Joined(st, a);
    assert SessionOk(s1, s1.sessions[sid]);
    hide RunFrom, Inv;
    var s2 := s1.(actual := st.actual[a := last]);
    RunStep(s1, steps, 1, s2);
    var s3 := s2.(polls := st.polls + [Poll(a, last)]);
    RunStep(s2, steps, 2, s3);
    var s4 := s2.(entries := st.entries + [Entry(a, true, last)]);
    assert s3.polls[..|st.polls|] + s3.polls[|st.polls| + 1..] == st.polls;
    assert s3.entries[|st.entries| := Entry(a, true, last)] == s4.entries;
    RunStep(s3, steps, 3, s4);
  }

  lemma ReadsStale(st: State, steps: seq<Step>, sid: nat, a: string)
    requires Inv(st) && sid < |st.sessions| && st.sessions[sid].phase.Idle? && !st.sessions[sid].txOpen
    requires |steps| == 6 && steps[4] == Act(sid, ReadStart) && steps[5] == Act(sid, ReadServe)
    requires |st.list| == 1 && st.entries[st.list[0]] == Entry(a, true, st.sessions[sid].last)
    requires Replayed(st, a) == st.sessions[sid].last
    ensures var s := st.sessions[sid];
            RunFrom(st, steps, 4).log == st.log + [Served(sid, a, s.last, s.last, s.need)]
  {
    assert ListOk(st);
    hide Inv, Choose;
    var s := st.sessions[sid];
    var e := EligibleFor(st.entries, st.list, s.last);
    EmptyMeansNone(e, st.cursor);
    var s5 := Apply(st, steps[4]);
    assert s5.sessions[sid].phase == Reading(a, s.last);
    RunStep(st, steps, 4, s5);
    RunStep(s5, steps, 5, Apply(s5, steps[5]));
  }

  /** A session whose recorded position is short of its newest committed write can be served a stale
      read by some continuation of any run. */
  lemma StaleReadFollows(st: State, sid: nat) returns (steps: seq<Step>)
    requires Inv(st) && sid < |st.sessions| && st.sessions[sid].phase.Idle? && !st.sessions[sid].txOpen
    requires st.sessions[sid].last < st.sessions[sid].need
    ensures forall j :: 0 <= j < |steps| ==> OnlyReads(steps[j], sid)
    ensures StaleSince(Run(st, steps), sid, |st.log|)
  {
    var a := NewAddress((set j | 0 <= j < |st.entries| :: st.entries[j].addr) + st.actual.Keys);
    steps := StaleSteps(st, sid, a);
    Joins(st, a);
    hide RunFrom, Inv;
    RunStep(st, steps, 0, Joined(st, a));
    ReplaysAndReports(st, sid, a);
    var s := st.sessions[sid];
    var r := Joined(st, a).(actual := st.actual[a := s.last], entries := st.entries + [Entry(a, true, s.last)]);
    ReadsStale(r, steps, sid, a);
    assert Run(st, steps).log[|st.log|] == Served(sid, a, s.last, s.last, s.need);
  }

  /** From any state of any run, for a session idle outside a transaction, some continuation in which
      the session only reads serves it a stale read if and only if its recorded position is short
      of its newest committed write. */
  lemma StaleReadExact(st: State, sid: nat)
    requires Inv(st) && sid < |st.sessions| && st.sessions[sid].phase.Idle? && !st.sessions[sid].txOpen
    ensures (exists steps: seq<Step> ::
               && (forall j :: 0 <= j < |steps| ==> OnlyReads(steps[j], sid))
               && StaleSince(Run(st, steps), sid, |st.log|))
            <==> st.sessions[sid].last < st.sessions[sid].need
  {
    hide RunFrom, Run;
    if st.sessions[sid].last < st.sessions[sid].need {
      var steps := StaleReadFollows(st, sid);
    } else {
      forall steps: seq<Step> | forall j :: 0 <= j < |steps| ==> OnlyReads(steps[j], sid)
        ensures !StaleSince(Run(st, steps), sid, |st.log|)
      {
        CoveredNeverStale(st, steps, sid);
      }
    }
  }

  lemma CoveredNeverStale(st: State, steps: seq<Step>, sid: nat)
    requires Inv(st) && sid < |st.sessions| && st.sessions[sid].phase.Idle?
    requires st.sessions[sid].need <= st.sessions[sid].last
    requires forall j :: 0 <= j < |steps| ==> OnlyReads(steps[j], sid)
    ensures !StaleSince(Run(st, steps), sid, |st.log|)
  {
    hide RunFrom;
    assert forall j :: 0 <= j < |steps| ==> OnlyReads(steps[j], sid) ==> Recorded(steps[j], sid);
    RunKeepsCovered(st, steps, 0, sid, |st.log|);
  }

  /** COMMIT records no position: after the commit of a transaction in any state of any run, the
      session can be served a read that misses it. */
  lemma CommitIsNotCovered(st: State, sid: nat, size: nat) returns (steps: seq<Step>)
    requires Inv(st) && sid < |st.sessions| && st.sessions[sid].phase.Idle? && st.sessions[sid].txOpen
    ensures var st' := Apply(st, Act(sid, TxCommit(size)));
            && Inv(st') && (forall j :: 0 <= j < |steps| ==> OnlyReads(steps[j], sid))
            && StaleSince(Run(st', steps), sid, |st'.log|)
  {
    hide RunFrom, Run;
    var st' := Apply(st, Act(sid, TxCommit(size)));
    StepKeepsInv(st, Act(sid, TxCommit(size)));
    assert SessionOk(st, st.sessions[sid]);
    steps := StaleReadFollows(st', sid);
  }

  /** A transaction runs on the writer: once it begins, and until it commits or aborts, no read of the
      session starts on a replica. */
  lemma TransactionKeepsToWriter(st: State, sid: nat, action: Action)
    requires Inv(st) && sid < |st.sessions| && st.sessions[sid].phase.Idle?
    ensures action.TxBegin? ==> Apply(st, Act(sid, action)).sessions[sid].txOpen
    ensures !st.sessions[sid].txOpen && (action.TxAbort? || action.TxCommit?) ==> Apply(st, Act(sid, action)) == st
    ensures st.sessions[sid].txOpen ==>
              var s' := Apply(st, Act(sid, action)).sessions[sid];
              !s'.phase.Reading? && (s'.txOpen <==> !action.TxCommit? && !action.TxAbort?)
  {
    hide Choose, EligibleFor;
  }

  /** So a whole transaction, from its BEGIN to its COMMIT, can be missed by the session's next read. */
  lemma TransactionIsNotCovered(st: State, sid: nat, size: nat) returns (steps: seq<Step>)
    requires Inv(st) && sid < |st.sessions| && st.sessions[sid].phase.Idle?
    ensures var begun := Apply(st, Act(sid, TxBegin));
            && Inv(begun)
            && var st' := Apply(begun, Act(sid, TxCommit(size)));
               && Inv(st') && (forall j :: 0 <= j < |steps| ==> OnlyReads(steps[j], sid))
               && StaleSince(Run(st', steps), sid, |st'.log|)
  {
    hide RunFrom, Run, Inv;
    InvLists(st);
    StepKeepsInv(st, Act(sid, TxBegin));
    steps := CommitIsNotCovered(Apply(st, Act(sid, TxBegin)), sid, size);
  }
}
