/** The token bucket of internal/resilience/ratelimit.go over real time, and what it admits over
    whole histories of calls. */
module RateLimit {

  datatype Bucket = Bucket(tokens: real, last: real)

  function Min(a: real, b: real): real {
    if a > b then b else a
  }

  /** Tokens added over a time. */
  function Earned(rate: real, elapsed: real): real {
    elapsed * rate
  }

  lemma EarnedAdd(rate: real, a: real, b: real)
    ensures Earned(rate, a + b) == Earned(rate, a) + Earned(rate, b) && Earned(rate, 0.0) == 0.0
  {}

  lemma EarnedMore(rate: real, a: real, b: real)
    requires rate >= 0.0 && a <= b
    ensures Earned(rate, a) <= Earned(rate, b) && Earned(rate, 0.0) == 0.0
  {}

  /** Tokens at time now, before the call at that time takes one. */
  function Refilled(rate: real, burst: int, b: Bucket, now: real): real {
    Min(b.tokens + Earned(rate, now - b.last), burst as real)
  }

  class RateLimiter {
    const rate: real
    const burst: int
    var tokens: real
    var lastTime: real

    constructor (rate: real, burst: int, now: real)
      ensures this.rate == rate && this.burst == burst && tokens == burst as real && lastTime == now
    {
      this.rate, this.burst, tokens, lastTime := rate, burst, burst as real, now;
    }

    method Allow(now: real) returns (ok: bool)
      modifies this
      ensures ok == (Refilled(rate, burst, Bucket(old(tokens), old(lastTime)), now) >= 1.0)
      ensures lastTime == now
      ensures tokens == Refilled(rate, burst, Bucket(old(tokens), old(lastTime)), now) - if ok then 1.0 else 0.0
    {
      hide Earned;
      var elapsed := now - lastTime;
      lastTime := now;
      tokens := tokens + Earned(rate, elapsed);
      if tokens > burst as real {
        tokens := burst as real;
      }
      if tokens >= 1.0 {
        tokens := tokens - 1.0;
        return true;
      }
      return false;
    }
  }

  // ---------------------------------------------------------------- histories

  /** A limiter created at start and called at the given times. */
  datatype History = History(rate: real, burst: int, start: real, times: seq<real>)

  /** The bucket after the first n calls. */
  function After(h: History, n: nat): Bucket
    requires n <= |h.times|
    decreases n, 0
  {
    if n == 0 then Bucket(h.burst as real, h.start)
    else Bucket(Level(h, n - 1) - (if Admits(h, n - 1) then 1.0 else 0.0), h.times[n - 1])
  }

  /** Tokens that call n finds. */
  function Level(h: History, n: nat): real
    requires n < |h.times|
    decreases n, 1
  {
    Refilled(h.rate, h.burst, After(h, n), h.times[n])
  }

  predicate Admits(h: History, n: nat)
    requires n < |h.times|
    decreases n, 2
  {
    Level(h, n) >= 1.0
  }

  /** How many of the calls from j up to and without n are admitted. */
  function Admitted(h: History, j: nat, n: nat): nat
    requires j <= n <= |h.times|
  {
    if j == n then 0 else Admitted(h, j, n - 1) + if Admits(h, n - 1) then 1 else 0
  }

  /** What a window that opened at time since has left at call n, after the calls from j on. */
  function Room(h: History, since: real, j: nat, n: nat): real
    requires j <= n < |h.times|
  {
    h.burst as real + Earned(h.rate, h.times[n] - since) - Admitted(h, j, n) as real
  }

  /** One more call shrinks or widens every window by the same amount. */
  lemma RoomStep(h: History, since: real, j: nat, n: nat)
    requires j < n < |h.times|
    ensures Room(h, since, j, n)
         == Room(h, since, j, n - 1) + Earned(h.rate, h.times[n] - h.times[n - 1]) - if Admits(h, n - 1) then 1.0 else 0.0
  {
    hide Level, Admits, Earned;
    EarnedAdd(h.rate, h.times[n - 1] - since, h.times[n] - h.times[n - 1]);
  }

  /** Every window, from creation and from each call so far, has at least x left. */
  ghost predicate AllRoom(h: History, n: nat, x: real)
    requires n < |h.times|
  {
    Room(h, h.start, 0, n) >= x && forall j :: 0 <= j <= n ==> Room(h, h.times[j], j, n) >= x
  }

  lemma LevelStep(h: History, n: nat)
    requires 0 < n < |h.times|
    ensures Level(h, n) == Min(Level(h, n - 1) - (if Admits(h, n - 1) then 1.0 else 0.0)
                               + Earned(h.rate, h.times[n] - h.times[n - 1]), h.burst as real)
  {
    hide Level, Admits, Earned;
    assert Level(h, n) == Refilled(h.rate, h.burst, After(h, n), h.times[n]) by {
      LevelIs(h, n);
    }
  }

  lemma LevelIs(h: History, n: nat)
    requires n < |h.times|
    ensures Level(h, n) == Refilled(h.rate, h.burst, After(h, n), h.times[n])
  {}

  /** The level is the least room of all windows. */
  lemma {:induction false} LevelIsLeastRoom(h: History, n: nat, x: real)
    requires n < |h.times|
    ensures Level(h, n) >= x <==> AllRoom(h, n, x)
  {
    hide Earned;
    EarnedAdd(h.rate, 0.0, 0.0);
    assert Room(h, h.times[n], n, n) == h.burst as real;
    if n == 0 {
      LevelIs(h, 0);
      assert Room(h, h.start, 0, 0) == h.burst as real + Earned(h.rate, h.times[0] - h.start);
    } else {
      var gain := Earned(h.rate, h.times[n] - h.times[n - 1]) - if Admits(h, n - 1) then 1.0 else 0.0;
      LevelStep(h, n);
      hide Level, Admits, Room;
      LevelIsLeastRoom(h, n - 1, x - gain);
      RoomStep(h, h.start, 0, n);
      forall j | 0 <= j < n ensures Room(h, h.times[j], j, n) == Room(h, h.times[j], j, n - 1) + gain {
        RoomStep(h, h.times[j], j, n);
      }
      assert AllRoom(h, n, x) ==> Room(h, h.times[n], n, n) >= x;
      assert AllRoom(h, n, x) ==> AllRoom(h, n - 1, x - gain);
    }
  }

  /** The admissions of the calls from j on, and call n, are no more than burst plus rate times
      the time since. */
  predicate Fits(h: History, since: real, j: nat, n: nat)
    requires j <= n < |h.times|
  {
    Admitted(h, j, n) as real + 1.0 <= h.burst as real + Earned(h.rate, h.times[n] - since)
  }

  lemma FitsIsRoom(h: History, since: real, j: nat, n: nat)
    requires j <= n < |h.times|
    ensures Fits(h, since, j, n) <==> Room(h, since, j, n) >= 1.0
  {
    hide Admitted, Earned;
  }

  /** A call is admitted exactly when, from creation and from every call so far, the admissions
      since plus this one fit into burst plus rate times the time since. */
  lemma AdmitsExactly(h: History, n: nat)
    requires n < |h.times|
    ensures Admits(h, n) <==> Fits(h, h.start, 0, n) && forall j :: 0 <= j <= n ==> Fits(h, h.times[j], j, n)
  {
    LevelIsLeastRoom(h, n, 1.0);
    hide Room, Fits, Level;
    FitsIsRoom(h, h.start, 0, n);
    forall j | 0 <= j <= n ensures Fits(h, h.times[j], j, n) <==> Room(h, h.times[j], j, n) >= 1.0 {
      FitsIsRoom(h, h.times[j], j, n);
    }
  }

  /** No window of time admits more than burst plus rate times its length. */
  lemma {:induction false} WindowBound(h: History, j: nat, n: nat, lo: real, hi: real)
    requires j <= n <= |h.times| && h.rate >= 0.0 && h.burst >= 0 && lo <= hi
    requires forall k :: j <= k < n ==> lo <= h.times[k] <= hi
    ensures Admitted(h, j, n) as real <= h.burst as real + Earned(h.rate, hi - lo)
    decreases n
  {
    hide Level, Admits, Earned;
    if j == n {
      EarnedMore(h.rate, 0.0, hi - lo);
    } else if Admits(h, n - 1) {
      AdmitsExactly(h, n - 1);
      assert Fits(h, h.times[j], j, n - 1);
      EarnedMore(h.rate, h.times[n - 1] - h.times[j], hi - lo);
    } else {
      WindowBound(h, j, n - 1, lo, hi);
    }
  }
}
