/** The circuit breaker of internal/resilience/breaker.go, and what every run of it keeps. */
module Breaker {

  datatype State = Closed | Open | HalfOpen

  /** The settings after NewCircuitBreaker has filled in its defaults. */
  datatype Config = Config(threshold: real, openDuration: int, halfOpenMax: int, windowSize: int)

  predicate Usable(cfg: Config) {
    cfg.threshold > 0.0 && cfg.openDuration > 0 && cfg.halfOpenMax > 0 && cfg.windowSize > 0
  }

  datatype Circuit = Circuit(state: State, successes: nat, failures: nat, openedAt: int, halfOpenOK: nat)

  /** A call on the breaker and the time of it; a Look is a call of State. */
  datatype Call = Allow(now: int) | Success(now: int) | Failure(now: int) | Look(now: int)

  const Initial := Circuit(Closed, 0, 0, 0, 0)

  /** The errors of a full window reach the threshold. */
  predicate Reaches(cfg: Config, failures: nat, total: nat)
    requires total > 0
  {
    failures as real / total as real >= cfg.threshold
  }

  /** evaluateWindow and resetCounters. */
  function Evaluated(cfg: Config, c: Circuit, now: int): Circuit
    requires Usable(cfg)
  {
    var total := c.successes + c.failures;
    if total < cfg.windowSize then c
    else if Reaches(cfg, c.failures, total) then Circuit(Open, 0, 0, now, c.halfOpenOK)
    else c.(successes := 0, failures := 0)
  }

  /** The open state ends by itself once its time has passed. */
  function Probed(cfg: Config, c: Circuit, now: int): Circuit {
    if c.state.Open? && now - c.openedAt >= cfg.openDuration then c.(state := HalfOpen, halfOpenOK := 0) else c
  }

  function Step(cfg: Config, c: Circuit, call: Call): Circuit
    requires Usable(cfg)
  {
    match call
    case Allow(now) => Probed(cfg, c, now)
    case Look(now) => Probed(cfg, c, now)
    case Success(now) =>
      if c.state.Closed? then Evaluated(cfg, c.(successes := c.successes + 1), now)
      else if !c.state.HalfOpen? then c
      else if c.halfOpenOK + 1 >= cfg.halfOpenMax then Circuit(Closed, 0, 0, c.openedAt, c.halfOpenOK + 1)
      else c.(halfOpenOK := c.halfOpenOK + 1)
    case Failure(now) =>
      if c.state.Closed? then Evaluated(cfg, c.(failures := c.failures + 1), now)
      else if c.state.HalfOpen? then c.(state := Open, openedAt := now)
      else c
  }

  /** An Allow is refused exactly while the breaker stays open. */
  predicate Refused(cfg: Config, c: Circuit, now: int) {
    Probed(cfg, c, now).state.Open?
  }

  class CircuitBreaker {
    const cfg: Config
    var state: State
    var successes: nat
    var failures: nat
    var total: nat
    var openedAt: int
    var halfOpenOK: nat

    ghost predicate Valid()
      reads this
    {
      Usable(cfg) && total == successes + failures
    }

    ghost function Value(): Circuit
      reads this
    {
      Circuit(state, successes, failures, openedAt, halfOpenOK)
    }

    /** NewCircuitBreaker; durations are in seconds. */
    constructor (threshold: real, openDuration: int, halfOpenMax: int, windowSize: int)
      ensures Valid() && Value() == Initial
      ensures cfg.windowSize == (if windowSize <= 0 then 10 else windowSize)
      ensures cfg.halfOpenMax == (if halfOpenMax <= 0 then 3 else halfOpenMax)
      ensures cfg.openDuration == (if openDuration <= 0 then 10 else openDuration)
      ensures cfg.threshold == (if threshold <= 0.0 then 0.5 else threshold)
    {
      cfg := Config(if threshold <= 0.0 then 0.5 else threshold, if openDuration <= 0 then 10 else openDuration,
                    if halfOpenMax <= 0 then 3 else halfOpenMax, if windowSize <= 0 then 10 else windowSize);
      state, successes, failures, total, openedAt, halfOpenOK := Closed, 0, 0, 0, 0, 0;
    }

    method Allow(now: int) returns (ok: bool)
      requires Valid()
      modifies this
      ensures Valid() && Value() == Step(cfg, old(Value()), Call.Allow(now))
      ensures ok == !Refused(cfg, old(Value()), now)
    {
      match state
      case Closed => return true;
      case Open =>
        if now - openedAt >= cfg.openDuration {
          state := HalfOpen;
          halfOpenOK := 0;
          return true;
        }
        return false;
      case HalfOpen => return true;
    }

    method RecordSuccess(now: int)
      requires Valid()
      modifies this
      ensures Valid() && Value() == Step(cfg, old(Value()), Success(now))
    {
      match state
      case Closed =>
        successes := successes + 1;
        total := total + 1;
        EvaluateWindow(now);
      case HalfOpen =>
        halfOpenOK := halfOpenOK + 1;
        if halfOpenOK >= cfg.halfOpenMax {
          state := Closed;
          ResetCounters();
        }
      case Open =>
    }

    method RecordFailure(now: int)
      requires Valid()
      modifies this
      ensures Valid() && Value() == Step(cfg, old(Value()), Failure(now))
    {
      match state
      case Closed =>
        failures := failures + 1;
        total := total + 1;
        EvaluateWindow(now);
      case HalfOpen =>
        state := Open;
        openedAt := now;
      case Open =>
    }

    /** The exported State. */
    method Current(now: int) returns (s: State)
      requires Valid()
      modifies this
      ensures Valid() && Value() == Step(cfg, old(Value()), Look(now)) && s == state
    {
      if state == Open && now - openedAt >= cfg.openDuration {
        state := HalfOpen;
        halfOpenOK := 0;
      }
      return state;
    }

    method EvaluateWindow(now: int)
      requires Valid()
      modifies this
      ensures Valid() && Value() == Evaluated(cfg, old(Value()), now)
    {
      if total < cfg.windowSize {
        return;
      }
      var errorRate := failures as real / total as real;
      if errorRate >= cfg.threshold {
        state := Open;
        openedAt := now;
      }
      ResetCounters();
    }

    method ResetCounters()
      modifies this
      ensures successes == failures == total == 0
      ensures unchanged(`state) && unchanged(`openedAt) && unchanged(`halfOpenOK)
    {
      successes, failures, total := 0, 0, 0;
    }
  }

  // ---------------------------------------------------------------- runs

  function After(cfg: Config, calls: seq<Call>, n: nat): Circuit
    requires Usable(cfg) && n <= |calls|
  {
    if n == 0 then Initial else Step(cfg, After(cfg, calls, n - 1), calls[n - 1])
  }

  predicate Ordered(calls: seq<Call>) {
    forall i, j :: 0 <= i <= j < |calls| ==> calls[i].now <= calls[j].now
  }

  /** Call i takes the breaker into a state it was not in before. */
  predicate Enters(cfg: Config, calls: seq<Call>, i: nat, s: State)
    requires Usable(cfg) && i < |calls|
  {
    After(cfg, calls, i).state != s && After(cfg, calls, i + 1).state == s
  }

  /** Closed leads only to open, open only to half-open. */
  lemma Edges(cfg: Config, c: Circuit, call: Call)
    requires Usable(cfg)
    ensures var d := Step(cfg, c, call).state;
            && (c.state.Closed? ==> !d.HalfOpen?) && (c.state.Open? ==> !d.Closed?)
  {}

  // ---------------------------------------------------------------- open

  lemma OpenStep(cfg: Config, c: Circuit, call: Call)
    requires Usable(cfg) && c.state.Open? && call.now - c.openedAt < cfg.openDuration
    ensures Step(cfg, c, call) == c && Refused(cfg, c, call.now)
  {}

  lemma OpensNow(cfg: Config, c: Circuit, call: Call)
    requires Usable(cfg) && !c.state.Open? && Step(cfg, c, call).state.Open?
    ensures Step(cfg, c, call).openedAt == call.now
  {}

  lemma {:induction false} StaysOpen(cfg: Config, calls: seq<Call>, i: nat, n: nat)
    requires Usable(cfg) && Ordered(calls) && i < n <= |calls| && Enters(cfg, calls, i, Open)
    requires calls[n - 1].now - calls[i].now < cfg.openDuration
    ensures After(cfg, calls, n).state.Open? && After(cfg, calls, n).openedAt == calls[i].now
    decreases n
  {
    if n == i + 1 {
      OpensNow(cfg, After(cfg, calls, i), calls[i]);
    } else {
      StaysOpen(cfg, calls, i, n - 1);
      OpenStep(cfg, After(cfg, calls, n - 1), calls[n - 1]);
    }
  }

  /** After the breaker opens, no Allow succeeds before its open time has passed. */
  lemma RefusedWhileOpen(cfg: Config, calls: seq<Call>, i: nat, n: nat)
    requires Usable(cfg) && Ordered(calls) && i < n < |calls| && Enters(cfg, calls, i, Open)
    requires calls[n].now - calls[i].now < cfg.openDuration
    ensures Refused(cfg, After(cfg, calls, n), calls[n].now)
  {
    assert calls[n - 1].now <= calls[n].now;
    StaysOpen(cfg, calls, i, n);
    OpenStep(cfg, After(cfg, calls, n), calls[n]);
  }

  /** An open breaker remembers when it was opened: it has been open since the call that opened it. */
  lemma {:induction false} OpenedWhen(cfg: Config, calls: seq<Call>, n: nat) returns (i: nat)
    requires Usable(cfg) && n <= |calls| && After(cfg, calls, n).state.Open?
    ensures i < n && Enters(cfg, calls, i, Open) && After(cfg, calls, n).openedAt == calls[i].now
    ensures forall k :: i < k <= n ==> After(cfg, calls, k).state.Open?
  {
    hide Step;
    var c := After(cfg, calls, n - 1);
    if c.state.Open? {
      i := OpenedWhen(cfg, calls, n - 1);
      StillOpen(cfg, c, calls[n - 1]);
    } else {
      i := n - 1;
      OpensNow(cfg, c, calls[n - 1]);
    }
  }

  lemma StillOpen(cfg: Config, c: Circuit, call: Call)
    requires Usable(cfg) && c.state.Open?
    ensures Step(cfg, c, call).state.Open? ==> Step(cfg, c, call) == c
    ensures Step(cfg, c, call).state.HalfOpen? <==>
            (call.Allow? || call.Look?) && call.now - c.openedAt >= cfg.openDuration
  {}

  /** An open breaker becomes half-open exactly at the first Allow or State call that comes when the open
      time has passed since it opened, and that Allow is let through. */
  lemma HalfOpensExactly(cfg: Config, calls: seq<Call>, n: nat) returns (i: nat)
    requires Usable(cfg) && n < |calls| && After(cfg, calls, n).state.Open?
    ensures i < n && Enters(cfg, calls, i, Open) && forall k :: i < k <= n ==> After(cfg, calls, k).state.Open?
    ensures Enters(cfg, calls, n, HalfOpen) <==>
            (calls[n].Allow? || calls[n].Look?) && calls[n].now - calls[i].now >= cfg.openDuration
    ensures Refused(cfg, After(cfg, calls, n), calls[n].now) <==> calls[n].now - calls[i].now < cfg.openDuration
  {
    hide Step;
    i := OpenedWhen(cfg, calls, n);
    StillOpen(cfg, After(cfg, calls, n), calls[n]);
  }

  /** The threshold is on the share of failures. */
  lemma ReachesExactly(cfg: Config, failures: nat, total: nat)
    requires total > 0
    ensures Reaches(cfg, failures, total) <==> failures as real >= cfg.threshold * total as real
  {
    var f, t := failures as real, total as real;
    assert f == (f / t) * t;
    if f / t >= cfg.threshold {
      Scale(cfg.threshold, f / t, t);
    }
    if f >= cfg.threshold * t && f / t < cfg.threshold {
      ScaleLess(f / t, cfg.threshold, t);
    }
  }

  lemma Scale(a: real, b: real, t: real)
    requires t > 0.0 && a <= b
    ensures a * t <= b * t
  {}

  lemma ScaleLess(a: real, b: real, t: real)
    requires t > 0.0
    ensures a < b ==> a * t < b * t
  {}

  // ---------------------------------------------------------------- half-open

  /** Recorded successes among the calls from lo up to and without hi. */
  function Successes(calls: seq<Call>, lo: nat, hi: nat): nat
    requires lo <= hi <= |calls|
  {
    if lo == hi then 0 else Successes(calls, lo, hi - 1) + if calls[hi - 1].Success? then 1 else 0
  }

  predicate NoFailure(calls: seq<Call>, lo: nat, hi: nat)
    requires lo <= hi <= |calls|
  {
    forall k :: lo <= k < hi ==> !calls[k].Failure?
  }

  /** The breaker became half-open at call i and has been half-open since. */
  ghost predicate HalfOpenSince(cfg: Config, calls: seq<Call>, i: nat, n: nat)
    requires Usable(cfg) && i < n <= |calls|
  {
    Enters(cfg, calls, i, HalfOpen) && forall k :: i < k <= n ==> After(cfg, calls, k).state.HalfOpen?
  }

  lemma HalfOpenStep(cfg: Config, c: Circuit, call: Call)
    requires Usable(cfg)
    ensures var d := Step(cfg, c, call);
            && (d.state.HalfOpen? && !c.state.HalfOpen? ==> d.halfOpenOK == 0 && !call.Failure?)
            && (d.state.HalfOpen? && c.state.HalfOpen? && c.halfOpenOK < cfg.halfOpenMax ==>
                  && !call.Failure? && d.halfOpenOK < cfg.halfOpenMax
                  && d.halfOpenOK == c.halfOpenOK + if call.Success? then 1 else 0)
            && (c.state.HalfOpen? ==>
                  (d.state.Closed? <==> call.Success? && c.halfOpenOK + 1 >= cfg.halfOpenMax))
            && (d.state.Closed? ==> c.state.HalfOpen? || c.state.Closed?)
  {}

  /** While half-open, the counter is the number of successes recorded since, and no failure was. */
  lemma {:induction false} HalfOpenCount(cfg: Config, calls: seq<Call>, n: nat) returns (i: nat)
    requires Usable(cfg) && n <= |calls| && After(cfg, calls, n).state.HalfOpen?
    ensures i < n && HalfOpenSince(cfg, calls, i, n) && NoFailure(calls, i + 1, n)
    ensures After(cfg, calls, n).halfOpenOK == Successes(calls, i + 1, n) < cfg.halfOpenMax
  {
    hide Step;
    var c := After(cfg, calls, n - 1);
    HalfOpenStep(cfg, c, calls[n - 1]);
    if c.state.HalfOpen? {
      i := HalfOpenCount(cfg, calls, n - 1);
    } else {
      i := n - 1;
    }
  }

  /** A half-open breaker closes at a call exactly when that call records a success and, with it,
      HalfOpenMax successes and no failure have been recorded since it became half-open; and it
      closes from no other state. */
  lemma ClosesExactly(cfg: Config, calls: seq<Call>, n: nat) returns (i: nat)
    requires Usable(cfg) && n < |calls|
    ensures Enters(cfg, calls, n, Closed) ==> After(cfg, calls, n).state.HalfOpen?
    ensures After(cfg, calls, n).state.HalfOpen? ==>
              && i < n && HalfOpenSince(cfg, calls, i, n) && NoFailure(calls, i + 1, n)
              && (Enters(cfg, calls, n, Closed) <==>
                    calls[n].Success? && Successes(calls, i + 1, n + 1) == cfg.halfOpenMax)
  {
    hide Step;
    HalfOpenStep(cfg, After(cfg, calls, n), calls[n]);
    i := 0;
    if After(cfg, calls, n).state.HalfOpen? {
      i := HalfOpenCount(cfg, calls, n);
    }
  }

  // ---------------------------------------------------------------- closed

  predicate Recorded(call: Call) {
    call.Success? || call.Failure?
  }

  /** Outcomes and failures among the calls from lo up to and without hi. */
  function Outcomes(calls: seq<Call>, lo: nat, hi: nat): nat
    requires lo <= hi <= |calls|
  {
    if lo == hi then 0 else Outcomes(calls, lo, hi - 1) + if Recorded(calls[hi - 1]) then 1 else 0
  }

  function Failures(calls: seq<Call>, lo: nat, hi: nat): nat
    requires lo <= hi <= |calls|
  {
    if lo == hi then 0 else Failures(calls, lo, hi - 1) + if calls[hi - 1].Failure? then 1 else 0
  }

  /** Where the tumbling window that call n falls into starts, counting windows of windowSize
      outcomes from call lo on. */
  function WindowStart(cfg: Config, calls: seq<Call>, lo: nat, n: nat): (s: nat)
    requires lo <= n <= |calls|
    ensures lo <= s <= n
    decreases n
  {
    if lo == n then lo
    else
      var s := WindowStart(cfg, calls, lo, n - 1);
      if Outcomes(calls, s, n) >= cfg.windowSize then n else s
  }

  /** Call n records the last outcome of its window, and the window reaches the threshold. */
  predicate Trips(cfg: Config, calls: seq<Call>, lo: nat, n: nat)
    requires Usable(cfg) && lo <= n < |calls|
  {
    var s := WindowStart(cfg, calls, lo, n);
    && Outcomes(calls, s, n + 1) >= cfg.windowSize
    && Reaches(cfg, Failures(calls, s, n + 1), Outcomes(calls, s, n + 1))
  }

  /** The breaker is closed and its counters are those of the current window. */
  ghost predicate Windowed(cfg: Config, calls: seq<Call>, lo: nat, n: nat)
    requires Usable(cfg) && lo <= n <= |calls|
  {
    var c, s := After(cfg, calls, n), WindowStart(cfg, calls, lo, n);
    && c.state.Closed? && c.failures == Failures(calls, s, n)
    && c.successes + c.failures == Outcomes(calls, s, n) < cfg.windowSize
  }

  /** One call of a closed breaker: it trips, or the window goes on, or a new one starts. */
  lemma WindowStep(cfg: Config, calls: seq<Call>, lo: nat, n: nat)
    requires Usable(cfg) && lo <= n < |calls| && Windowed(cfg, calls, lo, n)
    ensures Trips(cfg, calls, lo, n) ==> Enters(cfg, calls, n, Open)
    ensures !Trips(cfg, calls, lo, n) ==> Windowed(cfg, calls, lo, n + 1)
  {
    hide Reaches;
    var c, s := After(cfg, calls, n), WindowStart(cfg, calls, lo, n);
    assert After(cfg, calls, n + 1) == Step(cfg, c, calls[n]);
  }

  /** Full windows hold exactly windowSize outcomes, so the threshold is on their error rate. */
  lemma WindowIsFull(cfg: Config, calls: seq<Call>, lo: nat, n: nat)
    requires Usable(cfg) && lo <= n < |calls| && Windowed(cfg, calls, lo, n)
    ensures var s := WindowStart(cfg, calls, lo, n);
            Outcomes(calls, s, n + 1) >= cfg.windowSize ==>
              Recorded(calls[n]) && Outcomes(calls, s, n + 1) == cfg.windowSize
  {
    hide After;
  }

  /** The calls from lo on start with a breaker just closed: new, or closed again from half-open. */
  predicate FreshlyClosed(cfg: Config, calls: seq<Call>, lo: nat)
    requires Usable(cfg) && lo <= |calls|
  {
    lo == 0 || Enters(cfg, calls, lo - 1, Closed)
  }

  lemma FreshCounters(cfg: Config, calls: seq<Call>, lo: nat)
    requires Usable(cfg) && lo <= |calls| && FreshlyClosed(cfg, calls, lo)
    ensures Windowed(cfg, calls, lo, lo)
  {
    hide Reaches;
  }

  /** From the moment it closes, a breaker stays closed as long as no full window reaches the
      threshold, and opens at the very call that completes the first one that does. */
  lemma {:induction false} TripsExactly(cfg: Config, calls: seq<Call>, lo: nat, n: nat)
    requires Usable(cfg) && lo <= n < |calls| && FreshlyClosed(cfg, calls, lo)
    requires forall k :: lo < k <= n ==> After(cfg, calls, k).state.Closed?
    ensures Windowed(cfg, calls, lo, n)
    ensures Enters(cfg, calls, n, Open) <==> Trips(cfg, calls, lo, n)
    ensures After(cfg, calls, n + 1).state.Closed? <==> !Trips(cfg, calls, lo, n)
    decreases n
  {
    hide Windowed, Trips, After;
    if n == lo {
      FreshCounters(cfg, calls, lo);
    } else {
      TripsExactly(cfg, calls, lo, n - 1);
      WindowStep(cfg, calls, lo, n - 1);
      assert After(cfg, calls, n).state.Closed?;
    }
    WindowStep(cfg, calls, lo, n);
    WindowedClosed(cfg, calls, lo, n + 1);
  }

  lemma WindowedClosed(cfg: Config, calls: seq<Call>, lo: nat, n: nat)
    requires Usable(cfg) && lo <= n <= |calls|
    ensures Windowed(cfg, calls, lo, n) ==> After(cfg, calls, n).state.Closed?
  {}
}
