/** The round-robin reader balancer of internal/router/balancer.go. */
module Balancer {
  import opened Wrappers

  // ---------------------------------------------------------------- the cursor

  /** The list position a cursor value stands for. */
  function Slot(c: nat, n: nat): (r: nat)
    requires n > 0
    ensures r < n
  {
    c % n
  }

  /** One call of Next with the cursor at c: at most tries positions are visited, cyclically, and
      the cursor is left behind the last one visited. */
  function Pick(eligible: seq<bool>, c: nat, tries: nat): (r: (Option<nat>, nat))
    requires |eligible| > 0
    ensures r.0.Some? ==> r.0.value < |eligible| && eligible[r.0.value] && c < r.1 <= c + tries
    ensures r.0.None? ==> r.1 == c + tries
    decreases tries
  {
    var n := |eligible|;
    if tries == 0 then (None, c)
    else if eligible[Slot(c, n)] then (Some(Slot(c, n)), c + 1)
    else Pick(eligible, c + 1, tries - 1)
  }

  /** Next and NextWithLSN over the current list. */
  function Choose(eligible: seq<bool>, c: nat): (r: (Option<nat>, nat))
    ensures r.0.Some? ==> r.0.value < |eligible| && eligible[r.0.value]
  {
    if eligible == [] then (None, c) else Pick(eligible, c, |eligible|)
  }

  /** The positions k successive calls return, while each finds one. */
  function Calls(eligible: seq<bool>, c: nat, k: nat): seq<nat>
    decreases k
  {
    if k == 0 then []
    else
      var (pos, c') := Choose(eligible, c);
      if pos.None? then [] else [pos.value] + Calls(eligible, c', k - 1)
  }

  /** The eligible positions met by a cursor that goes from a to b. */
  function Walk(eligible: seq<bool>, a: nat, b: nat): seq<nat>
    requires |eligible| > 0 && a <= b
    decreases b - a
  {
    if a == b then []
    else (if eligible[Slot(a, |eligible|)] then [Slot(a, |eligible|)] else []) + Walk(eligible, a + 1, b)
  }

  /** Number of eligible positions. */
  function Eligibles(eligible: seq<bool>): nat {
    if eligible == [] then 0
    else Eligibles(eligible[..|eligible| - 1]) + if eligible[|eligible| - 1] then 1 else 0
  }

  /** How often position r occurs. */
  function Times(s: seq<nat>, r: nat): nat {
    if s == [] then 0 else (if s[0] == r then 1 else 0) + Times(s[1..], r)
  }

  lemma {:induction false} TimesConcat(s: seq<nat>, t: seq<nat>, r: nat)
    ensures Times(s + t, r) == Times(s, r) + Times(t, r)
  {
    if s == [] {
      assert s + t == t;
    } else {
      assert (s + t)[1..] == s[1..] + t;
      TimesConcat(s[1..], t, r);
    }
  }

  lemma {:induction false} WalkSplit(e: seq<bool>, a: nat, b: nat, c: nat)
    requires |e| > 0 && a <= b <= c
    ensures Walk(e, a, c) == Walk(e, a, b) + Walk(e, b, c)
    decreases b - a
  {
    if a < b {
      WalkSplit(e, a + 1, b, c);
    } else {
      assert Walk(e, a, b) == [];
    }
  }

  /** A call returns the first position of the walk ahead and leaves the rest of it. */
  lemma {:induction false} PickWalks(e: seq<bool>, c: nat, tries: nat, end: nat)
    requires |e| > 0 && c <= end <= c + tries && Walk(e, c, end) != []
    ensures var (pos, c') := Pick(e, c, tries);
            pos.Some? && c' <= end && Walk(e, c, end) == [pos.value] + Walk(e, c', end)
    decreases tries
  {
    hide Slot;
    if !e[Slot(c, |e|)] {
      PickWalks(e, c + 1, tries - 1, end);
    }
  }

  /** As many calls as the walk has positions return exactly these, in order. */
  lemma {:induction false} CallsWalk(e: seq<bool>, c: nat, k: nat, end: nat)
    requires |e| > 0 && c <= end <= c + |e| && k == |Walk(e, c, end)|
    ensures Calls(e, c, k) == Walk(e, c, end)
    decreases k
  {
    hide Slot, Pick, Walk;
    if k > 0 {
      PickWalks(e, c, |e|, end);
      CallsWalk(e, Pick(e, c, |e|).1, k - 1, end);
    }
  }

  lemma SlotUnique(c: nat, n: nat, q: int, r: nat)
    requires n > 0 && r < n && c == q * n + r
    ensures Slot(c, n) == r
  {
    var d := c / n - q;
    assert d * n == (c / n) * n - q * n;
    assert d >= 1 ==> d * n >= n;
    assert d <= -1 ==> d * n + n <= 0;
  }

  lemma WrapAround(c: nat, n: nat)
    requires n > 0
    ensures Slot(c + n, n) == Slot(c, n)
  {
    assert (c / n + 1) * n == (c / n) * n + n;
    SlotUnique(c + n, n, c / n + 1, c % n);
  }

  lemma SlotSmall(c: nat, n: nat)
    requires c < n
    ensures Slot(c, n) == c
  {
    SlotUnique(c, n, 0, c);
  }

  lemma WalkOne(e: seq<bool>, a: nat, r: nat)
    requires |e| > 0
    ensures Walk(e, a, a + 1) == if e[Slot(a, |e|)] then [Slot(a, |e|)] else []
    ensures Times(Walk(e, a, a + 1), r) == if e[Slot(a, |e|)] && Slot(a, |e|) == r then 1 else 0
  {
    hide Slot;
    assert Walk(e, a + 1, a + 1) == [];
  }

  lemma {:induction false} WalkFirstRound(e: seq<bool>, a: nat, r: nat)
    requires a <= |e| && r < |e|
    ensures Times(Walk(e, a, |e|), r) == if a <= r && e[r] then 1 else 0
    decreases |e| - a
  {
    hide Slot;
    if a < |e| {
      hide Walk, Times;
      SlotSmall(a, |e|);
      WalkFirstRound(e, a + 1, r);
      WalkSplit(e, a, a + 1, |e|);
      WalkOne(e, a, r);
      TimesConcat(Walk(e, a, a + 1), Walk(e, a + 1, |e|), r);
    } else {
      assert Walk(e, a, a) == [];
    }
  }

  lemma {:induction false} WalkLength(e: seq<bool>, k: nat)
    requires |e| > 0 && k <= |e|
    ensures |Walk(e, 0, k)| == Eligibles(e[..k])
  {
    if k > 0 {
      hide Slot, Walk;
      SlotSmall(k - 1, |e|);
      WalkLength(e, k - 1);
      WalkSplit(e, 0, k - 1, k);
      WalkOne(e, k - 1, 0);
      assert e[..k][..k - 1] == e[..k - 1];
    }
  }

  /** Wherever the cursor starts, one round meets every eligible position once. */
  lemma {:induction false} RoundMeetsAll(e: seq<bool>, c: nat, r: nat)
    requires r < |e|
    ensures Times(Walk(e, c, c + |e|), r) == if e[r] then 1 else 0
    ensures |Walk(e, c, c + |e|)| == Eligibles(e)
  {
    hide Slot, Walk, Eligibles, Times;
    var n := |e|;
    if c == 0 {
      WalkFirstRound(e, 0, r);
      WalkLength(e, n);
      assert e[..n] == e;
    } else {
      RoundMeetsAll(e, c - 1, r);
      WalkSplit(e, c - 1, c, c - 1 + n);
      WalkSplit(e, c, c - 1 + n, c + n);
      WalkOne(e, c - 1, r);
      WalkOne(e, c - 1 + n, r);
      WrapAround(c - 1, n);
      TimesConcat(Walk(e, c - 1, c), Walk(e, c, c - 1 + n), r);
      TimesConcat(Walk(e, c, c - 1 + n), Walk(e, c - 1 + n, c + n), r);
    }
  }

  /** While eligibility does not change, as many calls as there are eligible backends return each
      of them exactly once, from any cursor. */
  lemma FullRotation(e: seq<bool>, c: nat, r: nat)
    requires r < |e|
    ensures |Calls(e, c, Eligibles(e))| == Eligibles(e)
    ensures Times(Calls(e, c, Eligibles(e)), r) == if e[r] then 1 else 0
  {
    RoundMeetsAll(e, c, r);
    CallsWalk(e, c, Eligibles(e), c + |e|);
  }

  /** A call comes back empty exactly when no backend is eligible. */
  lemma EmptyMeansNone(e: seq<bool>, c: nat)
    ensures Choose(e, c).0.None? <==> forall i :: 0 <= i < |e| ==> !e[i]
  {
    if e != [] && Choose(e, c).0.None? {
      forall i | 0 <= i < |e| ensures !e[i] {
        RoundMeetsAll(e, c, i);
        if Walk(e, c, c + |e|) != [] {
          PickWalks(e, c, |e|, c + |e|);
        }
      }
    }
  }

  // ---------------------------------------------------------------- the balancer as an object

  class Backend {
    const addr: string
    var healthy: bool
    var replayLSN: nat

    constructor (addr: string)
      ensures this.addr == addr && healthy && replayLSN == 0
    {
      this.addr, healthy, replayLSN := addr, true, 0;
    }
  }

  /** A backend may be returned; minLSN zero asks for health only. */
  predicate CanServe(healthy: bool, replay: nat, minLSN: nat) {
    healthy && (minLSN == 0 || replay >= minLSN)
  }

  /** Which backends a call may return. */
  function Eligible(backends: seq<Backend>, minLSN: nat): (r: seq<bool>)
    reads backends
    ensures |r| == |backends|
    ensures forall i :: 0 <= i < |r| ==> r[i] == CanServe(backends[i].healthy, backends[i].replayLSN, minLSN)
  {
    if backends == [] then []
    else
      var m := |backends| - 1;
      Eligible(backends[..m], minLSN) + [CanServe(backends[m].healthy, backends[m].replayLSN, minLSN)]
  }

  class RoundRobin {
    var backends: seq<Backend>
    var index: nat

    /** NewRoundRobin: a healthy backend for each address, in the order given. */
    constructor (addrs: seq<string>)
      ensures |backends| == |addrs| && index == 0
      ensures forall i :: 0 <= i < |addrs| ==> fresh(backends[i]) && backends[i].addr == addrs[i]
      ensures forall i :: 0 <= i < |addrs| ==> backends[i].healthy && backends[i].replayLSN == 0
      ensures forall i, j :: 0 <= i < j < |addrs| ==> backends[i] != backends[j]
    {
      var list: seq<Backend> := [];
      for i := 0 to |addrs|
        invariant |list| == i
        invariant forall j :: 0 <= j < i ==> fresh(list[j]) && list[j].addr == addrs[j]
        invariant forall j :: 0 <= j < i ==> list[j].healthy && list[j].replayLSN == 0
        invariant forall j, k :: 0 <= j < k < i ==> list[j] != list[k]
      {
        var b := new Backend(addrs[i]);
        list := list + [b];
      }
      backends, index := list, 0;
    }

    /** Next for minLSN zero, NextWithLSN otherwise. */
    method NextWithLSN(minLSN: nat) returns (addr: string)
      modifies this`index
      ensures var (pos, index') := Choose(Eligible(backends, minLSN), old(index));
              index == index' && addr == if pos.Some? then backends[pos.value].addr else ""
      ensures addr != "" ==>
                exists i :: 0 <= i < |backends| && backends[i].addr == addr && backends[i].healthy
                            && (minLSN > 0 ==> backends[i].replayLSN >= minLSN)
      ensures (forall i :: 0 <= i < |backends| ==> backends[i].addr != "") ==>
                (addr == "" <==> forall i :: 0 <= i < |backends| && backends[i].healthy ==>
                                   minLSN > 0 && backends[i].replayLSN < minLSN)
    {
      hide Slot, Eligible;
      var n := |backends|;
      if n == 0 {
        return "";
      }
      ghost var e := Eligible(backends, minLSN);
      EmptyMeansNone(e, index);
      var i := 0;
      while i < n
        invariant 0 <= i <= n
        invariant Pick(e, old(index), n) == Pick(e, index, n - i)
      {
        var idx := Slot(index, n);
        index := index + 1;
        var b := backends[idx];
        if CanServe(b.healthy, b.replayLSN, minLSN) {
          return b.addr;
        }
        i := i + 1;
      }
      return "";
    }

    /** Position i holds the first backend with the address. */
    predicate IsFirst(addr: string, i: int)
      reads this
    {
      0 <= i < |backends| && backends[i].addr == addr && forall j :: 0 <= j < i ==> backends[j].addr != addr
    }

    /** SetReplayLSN: the first backend with the address takes the position, and nothing else changes. */
    method SetReplayLSN(addr: string, lsn: nat)
      modifies backends
      ensures forall b :: b in backends ==> b.healthy == old(b.healthy)
      ensures forall i :: IsFirst(addr, i) ==> backends[i].replayLSN == lsn
      ensures forall b :: b in backends && (forall i :: IsFirst(addr, i) ==> backends[i] != b) ==>
                b.replayLSN == old(b.replayLSN)
    {
      for i := 0 to |backends|
        invariant forall j :: 0 <= j < i ==> backends[j].addr != addr
        invariant forall b :: b in backends ==> b.replayLSN == old(b.replayLSN) && b.healthy == old(b.healthy)
      {
        if backends[i].addr == addr {
          assert IsFirst(addr, i);
          backends[i].replayLSN := lsn;
          return;
        }
      }
    }

    /** MarkUnhealthy: the first backend with the address is taken out of rotation, and nothing else
        changes. */
    method MarkUnhealthy(addr: string)
      modifies backends
      ensures forall b :: b in backends ==> b.replayLSN == old(b.replayLSN)
      ensures forall i :: IsFirst(addr, i) ==> !backends[i].healthy
      ensures forall b :: b in backends && (forall i :: IsFirst(addr, i) ==> backends[i] != b) ==>
                b.healthy == old(b.healthy)
    {
      for i := 0 to |backends|
        invariant forall j :: 0 <= j < i ==> backends[j].addr != addr
        invariant forall b :: b in backends ==> b.replayLSN == old(b.replayLSN) && b.healthy == old(b.healthy)
      {
        if backends[i].addr == addr {
          assert IsFirst(addr, i);
          backends[i].healthy := false;
          return;
        }
      }
    }

    /** UpdateBackends: of the backends of a known address the last is kept, with its health and
        position; an unknown address gets a new healthy one at position zero. */
    method UpdateBackends(addrs: seq<string>)
      modifies this`backends
      ensures |backends| == |addrs|
      ensures forall i :: 0 <= i < |addrs| ==> backends[i].addr == addrs[i]
      ensures forall i, j :: 0 <= i < |addrs| && IsLast(old(backends), |old(backends)|, addrs[i], j) ==> backends[i] == old(backends)[j]
      ensures forall i :: 0 <= i < |addrs| && (forall j :: 0 <= j < |old(backends)| ==> old(backends)[j].addr != addrs[i]) ==>
                fresh(backends[i]) && backends[i].healthy && backends[i].replayLSN == 0
    {
      var existing := ByAddress(backends);
      var updated: seq<Backend> := [];
      for i := 0 to |addrs|
        invariant |updated| == i && backends == old(backends)
        invariant forall j :: 0 <= j < i ==> updated[j].addr == addrs[j]
        invariant forall j :: 0 <= j < i && addrs[j] in existing ==> updated[j] == existing[addrs[j]]
        invariant forall j :: 0 <= j < i && addrs[j] !in existing ==>
                    fresh(updated[j]) && updated[j].healthy && updated[j].replayLSN == 0
      {
        if addrs[i] in existing {
          updated := updated + [existing[addrs[i]]];
        } else {
          var b := new Backend(addrs[i]);
          updated := updated + [b];
        }
      }
      backends := updated;
    }
  }

  /** Of the first n backends, position j holds the last with the address. */
  predicate IsLast(backends: seq<Backend>, n: nat, addr: string, j: int)
    requires n <= |backends|
  {
    0 <= j < n && backends[j].addr == addr && forall k :: j < k < n ==> backends[k].addr != addr
  }

  /** The backends by address; a later one of the same address replaces an earlier one. */
  method ByAddress(backends: seq<Backend>) returns (existing: map<string, Backend>)
    ensures forall a :: a in existing ==> existing[a].addr == a
    ensures forall i :: 0 <= i < |backends| ==> backends[i].addr in existing
    ensures forall a :: a in existing ==> exists i :: 0 <= i < |backends| && backends[i].addr == a
    ensures forall a, j :: IsLast(backends, |backends|, a, j) ==> a in existing && existing[a] == backends[j]
  {
    existing := map[];
    for i := 0 to |backends|
      invariant forall a :: a in existing ==> existing[a].addr == a
      invariant forall j :: 0 <= j < i ==> backends[j].addr in existing
      invariant forall a :: a in existing ==> exists j :: 0 <= j < i && backends[j].addr == a
      invariant forall a, j :: IsLast(backends, i, a, j) ==> a in existing && existing[a] == backends[j]
    {
      existing := existing[backends[i].addr := backends[i]];
      forall a, j | IsLast(backends, i + 1, a, j)
        ensures if backends[i].addr == a then j == i else IsLast(backends, i, a, j) {}
    }
  }
}
