/** Session of internal/router/router.go: the per-client routing state, and where its queries go, told
    from the calls made so far. */
module Routing {
  import opened Wrappers
  import opened SqlText
  import opened Statements
  import opened Router
  import opened TxState

  // ---------------------------------------------------------------- transaction control

  /** The statement scan takes the statement for one that opens a transaction. */
  predicate SaysBegin(stmt: string) {
    var u := Upper(Trim(stmt));
    StartsWith(u, "BEGIN") || StartsWith(u, "START TRANSACTION")
  }

  predicate SaysEnd(stmt: string) {
    var u := Upper(Trim(stmt));
    StartsWith(u, "COMMIT") || StartsWith(u, "ROLLBACK") || StartsWith(u, "END")
  }

  lemma SlowEffectIs(stmt: string)
    ensures SlowEffect(stmt) == Opens <==> SaysBegin(stmt)
    ensures SlowEffect(stmt) == Ends <==> SaysEnd(stmt)
  {
    hide Upper, Trim;
    var u := Upper(Trim(stmt));
    forall kw: string | kw != "" && StartsWith(u, kw) ensures |u| > 0 && u[0] == kw[0] {
      assert u[..|kw|][0] == u[0];
    }
    assert "BEGIN"[0] == 'B' && "START TRANSACTION"[0] == 'S' && "COMMIT"[0] == 'C' && "ROLLBACK"[0] == 'R' && "END"[0] == 'E';
  }

  predicate IsControl(stmt: string) {
    SaysBegin(stmt) || SaysEnd(stmt)
  }

  /** The flag after the statements of a query is what the last transaction control among them says, or
      what it was if there is none. */
  lemma {:induction false} ScanIsLastControl(inTx: bool, stmts: seq<string>)
    ensures (forall i :: 0 <= i < |stmts| ==> !IsControl(stmts[i])) ==> ScanTx(inTx, stmts) == inTx
    ensures forall i :: 0 <= i < |stmts| && IsControl(stmts[i]) && (forall j :: i < j < |stmts| ==> !IsControl(stmts[j])) ==>
              ScanTx(inTx, stmts) == SaysBegin(stmts[i])
    decreases |stmts|
  {
    hide SlowEffect, SaysBegin, SaysEnd;
    if stmts != [] {
      var rest, flag := stmts[1..], Apply(inTx, SlowEffect(stmts[0]));
      SlowEffectIs(stmts[0]);
      ScanIsLastControl(flag, rest);
      forall i | 0 <= i < |stmts| && IsControl(stmts[i]) && (forall j :: i < j < |stmts| ==> !IsControl(stmts[j]))
        ensures ScanTx(inTx, stmts) == SaysBegin(stmts[i])
      {
        if i > 0 {
          assert rest[i - 1] == stmts[i];
        }
      }
    }
  }

  lemma {:induction false} MentionsIsControl(stmts: seq<string>)
    ensures MentionsTx(stmts) <==> exists i :: 0 <= i < |stmts| && IsControl(stmts[i])
  {
    hide SlowEffect, SaysBegin, SaysEnd;
    if stmts != [] {
      SlowEffectIs(stmts[0]);
      MentionsIsControl(stmts[1..]);
      if i :| 0 <= i < |stmts[1..]| && IsControl(stmts[1..][i]) {
        assert stmts[i + 1] == stmts[1..][i];
      }
      if i :| 0 <= i < |stmts| && IsControl(stmts[i]) {
        if i > 0 {
          assert stmts[1..][i - 1] == stmts[i];
        }
      }
    }
  }

  /** The word, compared with bit 0x20 ignored, with white space, a semicolon or the end behind it. */
  predicate Plainly(q: string, kw: string) {
    var i := BlankEdge(q, 0);
    FoldsTo(q, i, kw) && (i + |kw| == |q| || q[i + |kw|] in {' ', '\t', '\n', '\r', ';'})
  }

  lemma PlainlyIs(q: string, kw: string)
    ensures Plainly(q, kw) <==> TxWordAt(q, BlankEdge(q, 0), kw)
  {}

  /** The prefix test takes a single statement for one that opens a transaction. */
  predicate BeginsPlainly(q: string) {
    Plainly(q, "BEGIN") || Plainly(q, "START TRANSACTION")
  }

  predicate EndsPlainly(q: string) {
    Plainly(q, "COMMIT") || Plainly(q, "ROLLBACK") || Plainly(q, "END")
  }

  lemma FastIs(q: string)
    ensures FastEffect(q) == Opens <==> BeginsPlainly(q)
    ensures FastEffect(q) != NoChange <==> BeginsPlainly(q) || EndsPlainly(q)
  {
    hide TxWordAt, Plainly;
    PlainlyIs(q, "BEGIN");
    PlainlyIs(q, "START TRANSACTION");
    PlainlyIs(q, "COMMIT");
    PlainlyIs(q, "ROLLBACK");
    PlainlyIs(q, "END");
  }

  /** A query that holds transaction control, by the test that its form calls for. */
  predicate Controls(q: string) {
    if IsSingle(q) then BeginsPlainly(q) || EndsPlainly(q)
    else exists i :: 0 <= i < |Split(q)| && IsControl(Split(q)[i])
  }

  /** The flag after a query: set by the last transaction control in it, kept if there is none. */
  predicate FlagFollows(was: bool, q: string, now: bool) {
    && (!Controls(q) ==> now == was)
    && (IsSingle(q) && BeginsPlainly(q) ==> now)
    && (IsSingle(q) && !BeginsPlainly(q) && EndsPlainly(q) ==> !now)
    && (!IsSingle(q) ==>
          forall i :: 0 <= i < |Split(q)| && IsControl(Split(q)[i]) && (forall j :: i < j < |Split(q)| ==> !IsControl(Split(q)[j]))
                      ==> now == SaysBegin(Split(q)[i]))
  }

  lemma FlagIs(was: bool, q: string)
    ensures FlagFollows(was, q, TxAfter(was, q))
  {
    hide IsSingle, Split, FastEffect, BeginsPlainly, EndsPlainly, SaysBegin, SaysEnd;
    FastIs(q);
    ScanIsLastControl(was, Split(q));
  }

  lemma ControlsIs(q: string)
    ensures Controls(q) <==> if IsSingle(q) then FastEffect(q) != NoChange else MentionsTx(Split(q))
  {
    hide IsSingle, Split, FastEffect, BeginsPlainly, EndsPlainly, IsControl;
    FastIs(q);
    MentionsIsControl(Split(q));
  }

  /** Where a query goes: to a reader if and only if the session is in no transaction before and after
      it, it holds no transaction control, it is no write, and reads follow write positions or no write
      is recent. */
  lemma RouteExact(inTx: bool, q: string, info: RouteInput)
    ensures RouteOf(inTx, q, info) == ToReader <==>
            && !inTx && !TxAfter(inTx, q) && !Controls(q) && !info.isWrite && (info.causal || !info.recentWrite)
  {
    hide IsSingle, Split, FastEffect, MentionsTx, ScanTx, Controls;
    ControlsIs(q);
  }

  // ---------------------------------------------------------------- the calls of a session

  datatype Call = Call(query: string, isWrite: bool, now: int)

  /** The in-transaction flag after the first n calls. */
  function FlagAt(calls: seq<Call>, n: nat): bool
    requires n <= |calls|
  {
    if n == 0 then false else TxAfter(FlagAt(calls, n - 1), calls[n - 1].query)
  }

  /** Call i belongs to a transaction: one is open before or after it, or it is transaction control. */
  predicate InTx(calls: seq<Call>, i: nat)
    requires i < |calls|
  {
    FlagAt(calls, i) || FlagAt(calls, i + 1) || Controls(calls[i].query)
  }

  /** Call i is the last write outside transactions. */
  ghost predicate LastWrite(calls: seq<Call>, i: nat) {
    && i < |calls| && calls[i].isWrite && !InTx(calls, i)
    && forall j :: i < j < |calls| ==> !(calls[j].isWrite && !InTx(calls, j))
  }

  lemma {:induction false} FlagPrefix(calls: seq<Call>, more: seq<Call>, n: nat)
    requires n <= |calls|
    ensures FlagAt(calls + more, n) == FlagAt(calls, n)
  {
    hide TxAfter;
    if n > 0 {
      FlagPrefix(calls, more, n - 1);
    }
  }

  lemma InTxPrefix(calls: seq<Call>, c: Call)
    ensures forall i :: 0 <= i < |calls| ==> InTx(calls + [c], i) == InTx(calls, i)
  {
    hide FlagAt, Controls;
    forall i | 0 <= i < |calls| ensures InTx(calls + [c], i) == InTx(calls, i) {
      FlagPrefix(calls, [c], i);
      FlagPrefix(calls, [c], i + 1);
    }
  }

  /** The write time a session keeps is that of its last write outside transactions. */
  ghost predicate Remembers(calls: seq<Call>, last: Option<int>) {
    && (last.None? ==> forall i: nat :: !LastWrite(calls, i))
    && (last.Some? ==> exists i: nat :: LastWrite(calls, i) && calls[i].now == last.value)
  }

  lemma RememberMore(calls: seq<Call>, last: Option<int>, c: Call)
    requires Remembers(calls, last)
    ensures var calls' := calls + [c];
            Remembers(calls', if c.isWrite && !InTx(calls', |calls|) then Some(c.now) else last)
  {
    hide InTx;
    var calls' := calls + [c];
    InTxPrefix(calls, c);
    if c.isWrite && !InTx(calls', |calls|) {
      assert LastWrite(calls', |calls|);
    } else {
      forall i: nat ensures LastWrite(calls', i) <==> LastWrite(calls, i) {
        LastWriteSame(calls, c, i);
      }
      if last.Some? {
        var i: nat :| LastWrite(calls, i) && calls[i].now == last.value;
        assert LastWrite(calls', i) && calls'[i].now == last.value;
      }
    }
  }

  lemma LastWriteSame(calls: seq<Call>, c: Call, i: nat)
    requires !(c.isWrite && !InTx(calls + [c], |calls|))
    ensures LastWrite(calls + [c], i) <==> LastWrite(calls, i)
  {
    hide InTx;
    var calls' := calls + [c];
    InTxPrefix(calls, c);
    assert forall j :: 0 <= j < |calls| ==> calls'[j] == calls[j];
  }

  /** A write outside transactions was made less than delay ago. */
  ghost predicate WroteRecently(calls: seq<Call>, now: int, delay: int) {
    delay > 0 && exists i: nat :: LastWrite(calls, i) && now - calls[i].now < delay
  }

  lemma RecentIs(calls: seq<Call>, last: Option<int>, now: int, delay: int)
    requires Remembers(calls, last)
    ensures WroteRecently(calls, now, delay) <==> delay > 0 && last.Some? && now - last.value < delay
  {
    hide InTx;
    if last.Some? {
      var k: nat :| LastWrite(calls, k) && calls[k].now == last.value;
      forall i: nat | LastWrite(calls, i) ensures i == k {
        OneLastWrite(calls, i, k);
      }
    }
  }

  lemma OneLastWrite(calls: seq<Call>, i: nat, k: nat)
    requires LastWrite(calls, i) && LastWrite(calls, k)
    ensures i == k
  {
    hide InTx;
  }

  /** With a clock that does not go back, it is enough to look for any such write. */
  lemma AnyRecentWrite(calls: seq<Call>, now: int, delay: int)
    requires forall i, j :: 0 <= i <= j < |calls| ==> calls[i].now <= calls[j].now
    ensures WroteRecently(calls, now, delay) <==>
            delay > 0 && exists i :: 0 <= i < |calls| && calls[i].isWrite && !InTx(calls, i) && now - calls[i].now < delay
  {
    hide InTx;
    if i: nat :| i < |calls| && calls[i].isWrite && !InTx(calls, i) && now - calls[i].now < delay {
      var k := LastFrom(calls, i);
      assert LastWrite(calls, k) && now - calls[k].now < delay;
    }
  }

  lemma {:induction false} LastFrom(calls: seq<Call>, i: nat) returns (k: nat)
    requires i < |calls| && calls[i].isWrite && !InTx(calls, i)
    ensures i <= k && LastWrite(calls, k)
    decreases |calls| - i
  {
    hide InTx;
    if j :| i < j < |calls| && calls[j].isWrite && !InTx(calls, j) {
      k := LastFrom(calls, j);
    } else {
      k := i;
    }
  }

  // ---------------------------------------------------------------- the session

  class Session {
    var inTransaction: bool
    var lastWriteTime: Option<int>
    const readAfterWriteDelay: int
    const causalConsistency: bool
    /** The calls so far; only the contracts look at them. */
    ghost var calls: seq<Call>

    ghost predicate Valid()
      reads this
    {
      inTransaction == FlagAt(calls, |calls|) && (!causalConsistency ==> Remembers(calls, lastWriteTime))
    }

    constructor (delay: int, causal: bool)
      ensures Valid() && calls == [] && !inTransaction && lastWriteTime == None
      ensures readAfterWriteDelay == delay && causalConsistency == causal
    {
      inTransaction, lastWriteTime := false, None;
      readAfterWriteDelay, causalConsistency := delay, causal;
      calls := [];
    }

    /** The last write lies within the delay window. */
    predicate RecentWrite(now: int)
      reads this
    {
      readAfterWriteDelay > 0 && lastWriteTime.Some? && now - lastWriteTime.value < readAfterWriteDelay
    }

    /** RouteWithTxState: the route together with the flag before and after the query. A query goes to a
        reader if and only if it belongs to no transaction, is no write, and either reads follow write
        positions or the session has not just written. */
    method RouteWithTxState(query: string, isWrite: bool, now: int)
      returns (route: Route, wasInTx: bool, nowInTx: bool)
      requires Valid()
      modifies this
      ensures Valid() && calls == old(calls) + [Call(query, isWrite, now)]
      ensures wasInTx == FlagAt(old(calls), |old(calls)|) && nowInTx == FlagAt(calls, |calls|)
      ensures FlagFollows(wasInTx, query, nowInTx)
      ensures route == ToReader <==>
              && !wasInTx && !nowInTx && !Controls(query) && !isWrite
              && (causalConsistency || !WroteRecently(old(calls), now, readAfterWriteDelay))
      ensures route == RouteOf(wasInTx, query, RouteInput(isWrite, causalConsistency, old(RecentWrite(now))))
    {
      hide FastEffect, IsSingle, Split, MentionsTx, ScanTx, Controls, FlagFollows, WroteRecently, Remembers, FlagAt;
      wasInTx := inTransaction;
      ghost var made := calls + [Call(query, isWrite, now)];
      var recent := RecentWrite(now);
      CallDoes(calls, Call(query, isWrite, now));
      ControlsIs(query);
      FlagIs(inTransaction, query);
      if !causalConsistency {
        RecentIs(calls, lastWriteTime, now, readAfterWriteDelay);
        RememberMore(calls, lastWriteTime, Call(query, isWrite, now));
      }
      calls := made;
      var hasTxKeyword := false;
      if IsSingle(query) {
        var tx := HasTxPrefix(query);
        if tx != NoChange {
          inTransaction := tx == Opens;
          hasTxKeyword := true;
        }
      } else {
        inTransaction := UpdateTransactionState(query, inTransaction);
        if wasInTx || inTransaction || MentionsTx(Split(query)) {
          return ToWriter, wasInTx, inTransaction;
        }
      }
      nowInTx := inTransaction;
      if hasTxKeyword || inTransaction {
        return ToWriter, wasInTx, nowInTx;
      }
      if isWrite {
        if !causalConsistency {
          lastWriteTime := Some(now);
        }
        return ToWriter, wasInTx, nowInTx;
      }
      route := if causalConsistency || !recent then ToReader else ToWriter;
    }
  }

  lemma CallDoes(calls: seq<Call>, c: Call)
    ensures var calls' := calls + [c];
            && FlagAt(calls', |calls'|) == TxAfter(FlagAt(calls, |calls|), c.query)
            && (InTx(calls', |calls|) <==>
                  FlagAt(calls, |calls|) || TxAfter(FlagAt(calls, |calls|), c.query) || Controls(c.query))
  {
    hide TxAfter, Controls;
    FlagPrefix(calls, [c], |calls|);
  }

  // ---------------------------------------------------------------- session-modifying queries

  predicate IsGap(c: char) {
    c == ' ' || c == '\t'
  }

  /** Behind position a, after spaces and tabs only, stands position j. */
  predicate GapTo(q: string, a: nat, j: nat) {
    a <= j <= |q| && forall k :: a <= k < j ==> IsGap(q[k])
  }

  /** The word, in any case, with a space, a tab or the end of the text behind it. */
  predicate Leads(q: string, i: nat, kw: string) {
    UpperAt(q, i, kw) && (i + |kw| == |q| || IsGap(q[i + |kw|]))
  }

  /** What follows a SET lasts only for the transaction. */
  predicate ScopedAt(q: string, j: nat) {
    || (j + 5 < |q| && UpperAt(q, j, "LOCAL") && IsGap(q[j + 5]))
    || (j + 11 < |q| && UpperAt(q, j, "TRANSACTION"))
  }

  ghost predicate ScopedSet(q: string, a: nat) {
    exists j: nat :: GapTo(q, a, j) && ScopedAt(q, j)
  }

  ghost predicate CreatesTemp(q: string, a: nat) {
    exists j: nat :: GapTo(q, a, j) && UpperAt(q, j, "TEMP")
  }

  lemma {:induction false} TabEdgeIs(q: string, a: nat, j: nat)
    requires GapTo(q, a, j) && j < |q| && !IsGap(q[j])
    ensures TabEdge(q, a) == j
    decreases j - a
  {
    if a < j {
      TabEdgeIs(q, a + 1, j);
    }
  }

  lemma {:induction false} TabEdgeGap(q: string, a: nat)
    requires a <= |q|
    ensures GapTo(q, a, TabEdge(q, a))
    decreases |q| - a
  {
    if a < |q| && IsTabOrSpace(q[a]) {
      TabEdgeGap(q, a + 1);
    }
  }

  /** A keyword does not begin with a gap. */
  lemma WordNoGap(q: string, j: nat, kw: string)
    requires kw != "" && 'A' <= kw[0] <= 'Z'
    ensures UpperAt(q, j, kw) ==> j < |q| && !IsGap(q[j])
  {
    UpperNth(q, j, kw, 0);
  }

  lemma ScopedIs(q: string, a: nat)
    requires a <= |q|
    ensures TxScopedSet(q, TabEdge(q, a)) <==> ScopedSet(q, a)
  {
    hide TabEdge, UpperAt, FoldsTo;
    var e := TabEdge(q, a);
    TabEdgeGap(q, a);
    FoldsIsUpper(q, e, "LOCAL");
    FoldsIsUpper(q, e, "TRANSACTION");
    assert TxScopedSet(q, e) <==> ScopedAt(q, e);
    if ScopedSet(q, a) {
      var j: nat :| GapTo(q, a, j) && ScopedAt(q, j);
      WordNoGap(q, j, "LOCAL");
      WordNoGap(q, j, "TRANSACTION");
      TabEdgeIs(q, a, j);
    }
  }

  lemma TempIs(q: string, a: nat)
    requires a <= |q|
    ensures FoldsTo(q, TabEdge(q, a), "TEMP") <==> CreatesTemp(q, a)
  {
    hide TabEdge, UpperAt, FoldsTo;
    var e := TabEdge(q, a);
    TabEdgeGap(q, a);
    FoldsIsUpper(q, e, "TEMP");
    if CreatesTemp(q, a) {
      var j: nat :| GapTo(q, a, j) && UpperAt(q, j, "TEMP");
      WordNoGap(q, j, "TEMP");
      TabEdgeIs(q, a, j);
    }
  }

  lemma LeadsIs(q: string, i: nat, kw: string)
    requires forall k :: 0 <= k < |kw| ==> 'A' <= kw[k] <= 'Z'
    ensures WordAt(q, i, kw) <==> Leads(q, i, kw)
  {
    hide UpperAt, FoldsTo;
    FoldsIsUpper(q, i, kw);
  }

  /** A whole word that makes a query session-modifying, whatever follows. */
  predicate LeadsModifying(q: string, i: nat) {
    || Leads(q, i, "PREPARE") || Leads(q, i, "DECLARE") || Leads(q, i, "DEALLOCATE")
    || Leads(q, i, "LISTEN") || Leads(q, i, "LOAD") || Leads(q, i, "UNLISTEN")
  }

  lemma SixWords(q: string, i: nat)
    ensures LeadsModifying(q, i) <==>
            || WordAt(q, i, "PREPARE") || WordAt(q, i, "DECLARE") || WordAt(q, i, "DEALLOCATE")
            || WordAt(q, i, "LISTEN") || WordAt(q, i, "LOAD") || WordAt(q, i, "UNLISTEN")
  {
    hide WordAt, Leads;
    LeadsIs(q, i, "PREPARE");
    LeadsIs(q, i, "DECLARE");
    LeadsIs(q, i, "DEALLOCATE");
    LeadsIs(q, i, "LISTEN");
    LeadsIs(q, i, "LOAD");
    LeadsIs(q, i, "UNLISTEN");
  }

  /** A SET that outlasts the transaction. */
  ghost predicate SetsForGood(q: string, i: nat) {
    UpperAt(q, i, "SET") && i + 3 < |q| && IsGap(q[i + 3]) && !ScopedSet(q, i + 4)
  }

  lemma SetIs(q: string, i: nat)
    ensures SetsForGood(q, i) <==>
            FoldsTo(q, i, "SET") && i + 3 < |q| && IsTabOrSpace(q[i + 3]) && !TxScopedSet(q, TabEdge(q, i + 4))
  {
    hide UpperAt, FoldsTo, TxScopedSet, ScopedSet, TabEdge;
    FoldsIsUpper(q, i, "SET");
    if i + 3 < |q| {
      ScopedIs(q, i + 4);
    }
  }

  lemma CreateIs(q: string, i: nat)
    ensures UpperAt(q, i, "CREATE") && CreatesTemp(q, i + 6) <==>
            FoldsTo(q, i, "CREATE") && FoldsTo(q, TabEdge(q, i + 6), "TEMP")
  {
    hide UpperAt, FoldsTo, CreatesTemp, TabEdge;
    FoldsIsUpper(q, i, "CREATE");
    if UpperAt(q, i, "CREATE") {
      TempIs(q, i + 6);
    }
  }

  /** Which queries leave session state behind: a SET that is not for the transaction only, PREPARE,
      DECLARE, DEALLOCATE, LISTEN, LOAD and UNLISTEN as whole words, and CREATE TEMP. */
  lemma ModifyingExact(q: string)
    ensures var i := BlankEdge(q, 0);
            IsSessionModifying(q) <==>
              SetsForGood(q, i) || LeadsModifying(q, i) || (UpperAt(q, i, "CREATE") && CreatesTemp(q, i + 6))
  {
    hide UpperAt, FoldsTo, WordAt, LeadsModifying, SetsForGood, TxScopedSet, CreatesTemp, TabEdge;
    var i := BlankEdge(q, 0);
    SetIs(q, i);
    SixWords(q, i);
    CreateIs(q, i);
  }
}
